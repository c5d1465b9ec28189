/** The turnaround service's operations on the stored documents, as they run without interruption. */
module TurnaroundService {
  import opened Wrappers
  import opened Turnaround
  import CA = CrewAssignment
  import Sorting
  import TT = TaskTemplates

  datatype Notice = Notice(ta: TurnaroundId, event: Event)

  function Notices(ta: TurnaroundId, events: seq<Event>): seq<Notice> {
    seq(|events|, i requires 0 <= i < |events| => Notice(ta, events[i]))
  }

  lemma NoticesInTurn(ta: TurnaroundId, events: seq<Event>, e: Event)
    ensures Notices(ta, []) == []
    ensures Notices(ta, events + [e]) == Notices(ta, events) + [Notice(ta, e)]
  {
  }

  predicate HasTurnaround(docs: map<TurnaroundId, Doc>, flight: FlightId) {
    exists id :: id in docs && docs[id].flight == flight
  }

  class TurnaroundService {
    var docs: map<TurnaroundId, Doc>
    var log: seq<Notice>

    constructor ()
      ensures docs == map[] && log == []
    {
      docs, log := map[], [];
    }

    // ---------- Repository ----------

    method FindByFlight(flight: FlightId) returns (r: Option<TurnaroundId>)
      ensures r.Some? ==> r.value in docs && docs[r.value].flight == flight
      ensures r == None ==> forall id :: id in docs ==> docs[id].flight != flight
    {
      var left := docs.Keys;
      while left != {}
        invariant left <= docs.Keys
        invariant forall id :: id in docs && id !in left ==> docs[id].flight != flight
        decreases left
      {
        var id :| id in left;
        if docs[id].flight == flight {
          return Some(id);
        }
        left := left - {id};
      }
      return None;
    }

    /** The atomic update of one embedded task; returns the document after the write. */
    method RepoUpdateTask(ta: TurnaroundId, task: TaskId, u: Updates) returns (r: Option<Doc>)
      modifies this`docs
      ensures ta !in old(docs) || FindTask(old(docs)[ta].tasks, task) == |old(docs)[ta].tasks| ==>
              r == None && docs == old(docs)
      ensures ta in old(docs) && FindTask(old(docs)[ta].tasks, task) < |old(docs)[ta].tasks| ==>
                r == Some(WriteTask(old(docs)[ta], task, u)) && docs == old(docs)[ta := r.value]
    {
      if ta !in docs {
        return None;
      }
      var doc := docs[ta];
      var k := FindTask(doc.tasks, task);
      if k == |doc.tasks| {
        return None;
      }
      doc := doc.(tasks := doc.tasks[k := ApplyUpdates(doc.tasks[k], u)]);
      docs := docs[ta := doc];
      r := Some(doc);
    }

    method RepoUpdateStatus(ta: TurnaroundId, status: TurnaroundStatus, progress: int, completedAt: Option<Instant>)
      returns (r: Option<Doc>)
      modifies this`docs
      ensures ta !in old(docs) ==> r == None && docs == old(docs)
      ensures ta in old(docs) ==>
              r == Some(WriteStatus(old(docs)[ta], status, progress, completedAt)) && docs == old(docs)[ta := r.value]
    {
      if ta !in docs {
        return None;
      }
      var doc := docs[ta].(status := status, progress := progress);
      if completedAt.Some? {
        doc := doc.(completedAt := completedAt);
      }
      docs := docs[ta := doc];
      r := Some(doc);
    }

    method RepoUpdateMilestones(ta: TurnaroundId, changes: Milestones) returns (r: Option<Doc>)
      modifies this`docs
      ensures ta !in old(docs) ==> r == None && docs == old(docs)
      ensures ta in old(docs) ==> r == Some(WriteMilestones(old(docs)[ta], changes)) && docs == old(docs)[ta := r.value]
    {
      if ta !in docs {
        return None;
      }
      var doc := docs[ta].(milestones := Merge(docs[ta].milestones, changes));
      docs := docs[ta := doc];
      r := Some(doc);
    }

    // ---------- Creation ----------

    /** De-icing takes boarding's place in the order, is pushed, and the list is sorted. */
    method InjectDeIcing(templates: seq<TT.Template>, temperature: Option<real>) returns (tasks: seq<TT.Template>)
      requires templates != []
      ensures tasks == TT.InjectDeIcing(templates, temperature)
    {
      tasks := templates;
      var deIcingTask := TT.DeIcingTask(TT.MaxOrder(tasks), temperature);
      var b := TT.FindName(tasks, "boarding");
      if b < |tasks| {
        deIcingTask := deIcingTask.(order := tasks[b].order);
        tasks := tasks[b := tasks[b].(order := tasks[b].order + 1)];
      }
      tasks := tasks + [deIcingTask];
      tasks := Sorting.StableSort(tasks, TT.Order);
    }

    /** The task list for an aircraft, built step by step; None where the lookup yields no list to map. */
    method BuildPlan(aircraftType: string, deIcing: bool, temperature: Option<real>, factor: real)
      returns (plan: Option<seq<TT.Template>>)
      ensures plan == Plan(aircraftType, deIcing, temperature, factor)
    {
      var templates := TT.TasksForAircraft(aircraftType);
      if templates == None {
        return None;
      }
      var tasks := TT.ScaleTasks(templates.value, factor);
      TT.LookupIsScaledTable(aircraftType);
      TT.TemplatesAreWellFormed(aircraftType);
      if deIcing {
        tasks := InjectDeIcing(tasks, temperature);
      }
      plan := Some(tasks);
    }

    /**
      Creates the turnaround of a flight once; a flight that has one gets it back and nothing is published.
      None is the exception on an inherited aircraft type, before anything is stored.
    */
    method CreateTurnaround(flight: FlightId, aircraftType: string, deIcing: bool, temperature: Option<real>,
                            factor: real,
                            freshId: TurnaroundId, taskIds: seq<TaskId>, now: Instant)
      returns (ta: Option<TurnaroundId>)
      requires freshId !in docs
      requires var plan := Plan(aircraftType, deIcing, temperature, factor);
               plan.Some? ==> |taskIds| == |plan.value|
      modifies this`docs, this`log
      ensures HasTurnaround(old(docs), flight) ==>
                ta.Some? && ta.value in old(docs) && old(docs)[ta.value].flight == flight && docs == old(docs) &&
                log == old(log)
      ensures !HasTurnaround(old(docs), flight) ==>
                var plan := Plan(aircraftType, deIcing, temperature, factor);
                if plan == None then ta == None && docs == old(docs) && log == old(log)
                else
                  && ta == Some(freshId)
                  && docs == old(docs)[freshId := NewDoc(flight, NewTasks(plan.value, taskIds), now)]
                  && log == old(log) + [Notice(freshId, Started(TaskInfos(docs[freshId].tasks)))]
    {
      var existing := FindByFlight(flight);
      if existing.Some? {
        return existing;
      }
      var templates := BuildPlan(aircraftType, deIcing, temperature, factor);
      if templates == None {
        return None;
      }
      var doc := NewDoc(flight, NewTasks(templates.value, taskIds), now);
      docs := docs[freshId := doc];
      log := log + [Notice(freshId, Started(TaskInfos(doc.tasks)))];
      ta := Some(freshId);
    }

    // ---------- Updates ----------

    /** The last block of a task update: stamp ARDT, store the turnaround as completed, announce it. */
    method AutoComplete(ta: TurnaroundId, ardt: Instant)
      requires ta in docs
      modifies this`docs, this`log
      ensures docs == old(docs)[ta := Completing(old(docs)[ta], ardt)]
      ensures log == old(log) + [Notice(ta, AllTasksDone)]
    {
      var _ := RepoUpdateMilestones(ta, NO_MILESTONES.(ardt := Some(ardt)));
      var completed := RepoUpdateStatus(ta, TurnaroundCompleted, 100, Some(ardt));
      if completed.Some? {
        log := log + [Notice(ta, AllTasksDone)];
      }
    }

    /**
      Without interruption the document and the events are those of `TaskUpdated`, which the call's steps add up to.
    */
    method UpdateTask(ta: TurnaroundId, task: TaskId, dto: Dto, now: Instant, ardt: Instant) returns (r: Option<Doc>)
      modifies this`docs, this`log
      ensures ta !in old(docs) ==> r == None && docs == old(docs) && log == old(log)
      ensures ta in old(docs) ==>
                var s := TaskUpdated(old(docs)[ta], task, dto, now, ardt);
                && docs == old(docs)[ta := s.doc]
                && log == old(log) + Notices(ta, s.events)
                && r == if s.call.Failed? then None else Some(s.doc)
    {
      if ta !in docs {
        return None;
      }
      var k := FindTask(docs[ta].tasks, task);
      if k == |docs[ta].tasks| {
        return None;
      }
      var updated := RepoUpdateTask(ta, task, UpdatesFor(docs[ta].tasks[k], dto, now));
      if updated == None {
        return None;
      }
      var image := updated.value;
      var completedCount := CountDone(image.tasks);
      CountDoneIsAll(image.tasks);
      var _ := RepoUpdateStatus(ta, image.status, ProgressOf(image.tasks), None);
      assert docs == old(docs)[ta := WriteStatus(image, image.status, ProgressOf(image.tasks), None)];
      ghost var events: seq<Event> := [];
      if dto.status == Some(Completed) {
        log := log + [Notice(ta, TaskDone(task))];
        NoticesInTurn(ta, events, TaskDone(task));
        events := [] + [TaskDone(task)];
      }
      if completedCount == |image.tasks| {
        AutoComplete(ta, ardt);
        NoticesInTurn(ta, events, AllTasksDone);
        events := events + [AllTasksDone];
      }
      assert log == old(log) + Notices(ta, events);
      r := Some(docs[ta]);
    }

    method UpdateMilestones(ta: TurnaroundId, changes: Milestones) returns (r: Option<Doc>)
      modifies this`docs, this`log
      ensures ta !in old(docs) ==> r == None && docs == old(docs) && log == old(log)
      ensures ta in old(docs) ==> forall now, ardt ::
                var s := Serial(old(docs)[ta], MilestonesCalled(changes), now, ardt);
                && docs == old(docs)[ta := s.doc]
                && log == old(log) + Notices(ta, s.events)
                && r == if s.call.Failed? then None else Some(s.doc)
    {
      if ta !in docs {
        return None;
      }
      forall now, ardt {
        SerialMilestoneUpdate(docs[ta], changes, now, ardt);
      }
      var existing := docs[ta].milestones;
      var tobt, tsat, aobt := Override(existing.tobt, changes.tobt), Override(existing.tsat, changes.tsat),
                              Override(existing.aobt, changes.aobt);
      if tobt.Some? && tsat.Some? && tsat.value < tobt.value {
        return None;
      }
      if aobt.Some? && tsat.Some? && aobt.value < tsat.value {
        return None;
      }
      r := RepoUpdateMilestones(ta, changes);
      log := log + [Notice(ta, MilestonesChanged)];
      assert log == old(log) + Notices(ta, [MilestonesChanged]);
    }
  }
}
