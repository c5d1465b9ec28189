/**
  Overlapping calls on one turnaround: completion is announced in every interleaving, the stored status may not
  survive.
*/
module Completion {
  import opened Wrappers
  import opened Turnaround
  import opened Transitions

  /**
    The document, the calls in flight, and the published events. `mark` is the length the log had when the
    document last became all-done; `everDone` says whether it has been all-done at all.
  */
  datatype State = State(doc: Doc, calls: seq<Call>, log: seq<Event>, mark: nat, everDone: bool)

  datatype Action = Begin(call: Call) | Continue(i: nat, now: Instant)

  ghost function Continued(s: State, i: nat, now: Instant): State
    requires i < |s.calls|
  {
    var step := Advance(s.doc, s.calls[i], now);
    State(step.doc, s.calls[i := step.call], s.log + Published(step.event),
          if !AllDone(s.doc.tasks) && AllDone(step.doc.tasks) then |s.log| else s.mark,
          s.everDone || AllDone(step.doc.tasks))
  }

  ghost predicate Next(s: State, a: Action, s': State) {
    match a
    case Begin(call) => (call.TaskCalled? || call.MilestonesCalled?) && s' == s.(calls := s.calls + [call])
    case Continue(i, now) => i < |s.calls| && s' == Continued(s, i, now)
  }

  ghost predicate Initial(s: State) {
    s.calls == [] && s.log == [] && s.mark == 0 && !s.everDone && !AllDone(s.doc.tasks)
  }

  ghost predicate Quiescent(s: State) {
    forall i :: 0 <= i < |s.calls| ==> Finished(s.calls[i])
  }

  /** The call saw an all-done document and has still to publish. */
  ghost predicate WillPublish(call: Call) {
    match call
    case Wrote(_, _, image) => AllDone(image.tasks)
    case Progressed(_, _, image) => AllDone(image.tasks)
    case Announced(image) => AllDone(image.tasks)
    case Stamped(_) => true
    case Closing => true
    case _ => false
  }

  /** Only the task write of a call makes the document all-done, and that very call then owes the publication. */
  lemma FinisherPublishes(doc: Doc, call: Call, now: Instant)
    requires !AllDone(doc.tasks) && AllDone(Advance(doc, call, now).doc.tasks)
    ensures call.Located? && WillPublish(Advance(doc, call, now).call)
  {
  }

  /** A call that owes the publication keeps owing it until the step that publishes. */
  lemma DebtIsPaid(doc: Doc, call: Call, now: Instant)
    requires WillPublish(call)
    ensures !Finished(call)
    ensures WillPublish(Advance(doc, call, now).call) || Advance(doc, call, now).event == Some(AllTasksDone)
  {
  }

  ghost predicate SomeoneWillPublish(s: State) {
    exists i :: 0 <= i < |s.calls| && WillPublish(s.calls[i])
  }

  ghost predicate PublishedSinceMark(s: State) {
    exists k :: s.mark <= k < |s.log| && s.log[k] == AllTasksDone
  }

  ghost predicate Inv(s: State) {
    && s.mark <= |s.log|
    && (AllDone(s.doc.tasks) ==> SomeoneWillPublish(s) || PublishedSinceMark(s))
    && (SomeoneWillPublish(s) || AllTasksDone in s.log ==> s.everDone)
  }

  lemma ContinueKeepsInv(s: State, i: nat, now: Instant)
    requires Inv(s) && i < |s.calls|
    ensures Inv(Continued(s, i, now))
  {
    var s' := Continued(s, i, now);
    var step := Advance(s.doc, s.calls[i], now);
    if AllDone(s'.doc.tasks) {
      if !AllDone(s.doc.tasks) {
        FinisherPublishes(s.doc, s.calls[i], now);
        assert WillPublish(s'.calls[i]);
      } else if PublishedSinceMark(s) {
        var k :| s.mark <= k < |s.log| && s.log[k] == AllTasksDone;
        assert s'.log[k] == AllTasksDone;
      } else {
        var d :| 0 <= d < |s.calls| && WillPublish(s.calls[d]);
        if d == i {
          DebtIsPaid(s.doc, s.calls[i], now);
          if WillPublish(step.call) {
            assert WillPublish(s'.calls[i]);
          } else {
            assert s'.log[|s.log|] == AllTasksDone;
          }
        } else {
          assert WillPublish(s'.calls[d]);
        }
      }
    }
    if SomeoneWillPublish(s') || AllTasksDone in s'.log {
      DebtorsMeanDone(s, i, now);
    }
  }

  lemma DebtorsMeanDone(s: State, i: nat, now: Instant)
    requires Inv(s) && i < |s.calls|
    requires SomeoneWillPublish(Continued(s, i, now)) || AllTasksDone in Continued(s, i, now).log
    ensures Continued(s, i, now).everDone
  {
  }

  lemma NextKeepsInv(s: State, a: Action, s': State)
    requires Inv(s) && Next(s, a, s')
    ensures Inv(s')
  {
    match a
    case Begin(call) =>
      assert forall i :: 0 <= i < |s.calls| ==> s'.calls[i] == s.calls[i];
      assert !WillPublish(call);
      assert SomeoneWillPublish(s') <==> SomeoneWillPublish(s);
    case Continue(i, now) =>
      ContinueKeepsInv(s, i, now);
  }

  /**
    Completion is never missed: in every interleaving, once all calls have returned, an all-done turnaround has been
    announced since it last became all-done; and it is never announced unless it was all-done at some moment.
  */
  lemma CompletionNeverMissed(states: seq<State>, actions: seq<Action>, k: nat)
    requires Execution(Next, states, actions) && Initial(states[0]) && k <= |actions|
    ensures Quiescent(states[k]) && AllDone(states[k].doc.tasks) ==>
              exists j :: states[k].mark <= j < |states[k].log| && states[k].log[j] == AllTasksDone
    ensures AllTasksDone in states[k].log ==> states[k].everDone
  {
    forall j | 0 <= j < k && Inv(states[j]) && Next(states[j], actions[j], states[j + 1]) ensures Inv(states[j + 1]) {
      NextKeepsInv(states[j], actions[j], states[j + 1]);
    }
    HoldsAlways(Next, Inv, states, actions, k);
    var s := states[k];
    if Quiescent(s) && SomeoneWillPublish(s) {
      var i :| 0 <= i < |s.calls| && WillPublish(s.calls[i]);
      DebtIsPaid(s.doc, s.calls[i], 0);
    }
  }

  // ---------- The stored status ----------

  /** The one step that takes a document out of COMPLETED: a progress write carrying a status read before completion. */
  ghost predicate Stale(doc: Doc, call: Call) {
    call.Wrote? && doc.status == TurnaroundCompleted && call.image.status != TurnaroundCompleted
  }

  lemma StatusLostExactlyByStaleWrite(doc: Doc, call: Call, now: Instant)
    requires doc.status == TurnaroundCompleted
    ensures Advance(doc, call, now).doc.status != TurnaroundCompleted <==> Stale(doc, call)
  {
  }

  /** The call will write back a status it read before completion. */
  predicate HoldsStaleStatus(call: Call) {
    call.Wrote? && call.image.status != TurnaroundCompleted
  }

  ghost predicate NobodyHoldsStaleStatus(s: State) {
    forall i :: 0 <= i < |s.calls| ==> !HoldsStaleStatus(s.calls[i])
  }

  /** Whatever happens next, the turnaround stays stored as COMPLETED. */
  ghost predicate CompletedSurvives(s: State) {
    forall t :: Reaches(Next, s, t) ==> t.doc.status == TurnaroundCompleted
  }

  /** Calls that write their task while COMPLETED is stored read COMPLETED, so no stale status comes in. */
  lemma NextKeepsCompleted(s: State, a: Action, s': State)
    requires s.doc.status == TurnaroundCompleted && NobodyHoldsStaleStatus(s) && Next(s, a, s')
    ensures s'.doc.status == TurnaroundCompleted && NobodyHoldsStaleStatus(s')
  {
  }

  lemma {:induction false} CompletedAlways(states: seq<State>, actions: seq<Action>, j: nat, k: nat)
    requires Execution(Next, states, actions) && j <= k <= |actions|
    requires states[j].doc.status == TurnaroundCompleted && NobodyHoldsStaleStatus(states[j])
    ensures states[k].doc.status == TurnaroundCompleted && NobodyHoldsStaleStatus(states[k])
  {
    if j < k {
      CompletedAlways(states, actions, j, k - 1);
      NextKeepsCompleted(states[k - 1], actions[k - 1], states[k]);
    }
  }

  /**
    A stored COMPLETED survives every continuation, with any number of further calls, if and only if no call in flight
    is between its task write and its progress write with an older status in hand.
  */
  lemma CompletedSurvivesIff(s: State)
    requires s.doc.status == TurnaroundCompleted
    ensures CompletedSurvives(s) <==> NobodyHoldsStaleStatus(s)
  {
    if NobodyHoldsStaleStatus(s) {
      forall t | Reaches(Next, s, t) ensures t.doc.status == TurnaroundCompleted {
        var states, actions :| Run(Next, s, t, states, actions);
        CompletedAlways(states, actions, 0, |actions|);
      }
    } else {
      var i :| 0 <= i < |s.calls| && HoldsStaleStatus(s.calls[i]);
      ReachesItself(Next, s);
      ReachesNext(Next, s, s, Continue(i, 0), Continued(s, i, 0));
    }
  }

  ghost predicate FreshStep(s: State, a: Action) {
    a.Continue? && a.i < |s.calls| ==> !Stale(s.doc, s.calls[a.i])
  }

  ghost predicate NoStaleWrite(states: seq<State>, actions: seq<Action>)
    requires Execution(Next, states, actions)
  {
    forall k :: 0 <= k < |actions| ==> FreshStep(states[k], actions[k])
  }

  ghost predicate StatusFollows(s: State) {
    AllTasksDone in s.log || Closing in s.calls ==> s.doc.status == TurnaroundCompleted
  }

  lemma {:induction false} StatusFollowsAlways(states: seq<State>, actions: seq<Action>, k: nat)
    requires Execution(Next, states, actions) && Initial(states[0]) && NoStaleWrite(states, actions) && k <= |actions|
    ensures StatusFollows(states[k])
  {
    if k > 0 {
      StatusFollowsAlways(states, actions, k - 1);
      var s, s' := states[k - 1], states[k];
      assert FreshStep(s, actions[k - 1]);
      if actions[k - 1].Continue? {
        var i := actions[k - 1].i;
        if AllTasksDone in s.log || Closing in s.calls {
          StatusLostExactlyByStaleWrite(s.doc, s.calls[i], actions[k - 1].now);
        } else {
          assert s.calls[i] != Closing;
        }
      }
    }
  }

  /** Without a stale write, a quiescent all-done turnaround is stored as COMPLETED. */
  lemma CompletedUnlessStale(states: seq<State>, actions: seq<Action>, k: nat)
    requires Execution(Next, states, actions) && Initial(states[0]) && NoStaleWrite(states, actions) && k <= |actions|
    requires Quiescent(states[k]) && AllDone(states[k].doc.tasks)
    ensures states[k].doc.status == TurnaroundCompleted
  {
    CompletionNeverMissed(states, actions, k);
    StatusFollowsAlways(states, actions, k);
  }

  // ---------- Concrete interleavings that lose ----------

  function OpenTask(id: TaskId): Task {
    Task(id, "fueling", Pending, 30, None, None, 1, None, None, None, None, None)
  }

  function TwoTaskDoc(): Doc {
    NewDoc(0, [OpenTask(1), OpenTask(2)], 0)
  }

  function Complete(): Dto {
    Dto(Some(Completed), None, None, None)
  }

  ghost function Start(): State {
    State(TwoTaskDoc(), [TaskCalled(1, Complete()), TaskCalled(2, Complete())], [], 0, false)
  }

  ghost function AfterBothWrites(): (s: State)
    ensures |s.calls| == 2
  {
    Continued(Continued(Continued(Continued(Start(), 0, 0), 0, 0), 1, 0), 1, 0)
  }

  ghost function Announce(s: State, i: nat): (s': State)
    requires i < |s.calls|
    ensures |s'.calls| == |s.calls|
  {
    Continued(Continued(s, i, 0), i, 0)
  }

  ghost function Close(s: State, i: nat): (s': State)
    requires i < |s.calls|
    ensures |s'.calls| == |s.calls|
  {
    Continued(Continued(Continued(s, i, 0), i, 0), i, 0)
  }

  /** Call 1 finishes while call 0 still holds an older image; then call 0 finishes. */
  ghost function WithStraggler(s: State): State
    requires |s.calls| == 2
  {
    Continued(Announce(Close(Announce(s, 1), 1), 0), 0, 0)
  }

  lemma BothWritten()
    ensures var s := AfterBothWrites();
            && s.doc.tasks ==
               [OpenTask(1).(status := Completed, completedAt := Some(0)),
                OpenTask(2).(status := Completed, completedAt := Some(0))]
            && s.doc.status == TurnaroundInProgress
            && |s.calls| == 2
            && s.calls[0].Wrote? && s.calls[0].image.status == TurnaroundInProgress && !AllDone(s.calls[0].image.tasks)
            && s.calls[0].dto == Complete() && s.calls[1] == Wrote(2, Complete(), s.doc) && s.log == []
  {
    var updates := Updates(Some(Completed), None, Some(0), None, None, None);
    var s1 := Continued(Start(), 0, 0);
    assert s1.calls == [Located(1, Complete(), updates), TaskCalled(2, Complete())];
    var s2 := Continued(s1, 0, 0);
    assert s2.doc.tasks == [OpenTask(1).(status := Completed, completedAt := Some(0)), OpenTask(2)];
    assert s2.calls == [Wrote(1, Complete(), s2.doc), TaskCalled(2, Complete())];
    var tail := s2.doc.tasks[1..];
    assert FindTask(s2.doc.tasks, 2) == 1;
    var s3 := Continued(s2, 1, 0);
    assert s3.calls == [Wrote(1, Complete(), s2.doc), Located(2, Complete(), updates)];
    assert !Done(s2.doc.tasks[1]);
  }

  /** A call past its task write stores the status of its image and reaches the completion test. */
  lemma Announces(s: State, i: nat)
    requires i < |s.calls| && s.calls[i].Wrote?
    ensures var image := s.calls[i].image;
            && Announce(s, i).calls == s.calls[i := Announced(image)]
            && Announce(s, i).doc == WriteStatus(s.doc, image.status, ProgressOf(image.tasks), None)
            && s.log <= Announce(s, i).log
  {
  }

  lemma Closes(s: State, i: nat)
    requires i < |s.calls| && s.calls[i].Announced? && AllDone(s.calls[i].image.tasks)
    ensures Close(s, i).calls == s.calls[i := Returned]
    ensures Close(s, i).doc.status == TurnaroundCompleted && Close(s, i).doc.tasks == s.doc.tasks
    ensures AllTasksDone in Close(s, i).log
  {
  }

  lemma StragglerOverwrites(s: State)
    requires |s.calls| == 2 && s.calls[0].Wrote? && s.calls[1].Wrote?
    requires AllDone(s.calls[1].image.tasks) && !AllDone(s.calls[0].image.tasks)
    ensures var e := WithStraggler(s);
            Quiescent(e) && e.doc.tasks == s.doc.tasks && AllTasksDone in e.log &&
            e.doc.status == s.calls[0].image.status
  {
    var a := Announce(s, 1);
    Announces(s, 1);
    Closes(a, 1);
    var c := Close(a, 1);
    Announces(c, 0);
    assert c.calls[0] == s.calls[0];
    var b := Announce(c, 0);
    assert b.calls[0] == Announced(s.calls[0].image) && b.calls[1] == Returned;
  }

  /**
    Two people finish the last two tasks at once. Every call returns and turnaround.completed was published,
    yet the turnaround is stored as in progress: the slower call overwrote COMPLETED with the status it had read.
  */
  lemma StaleStatusOverwritesCompletion()
    ensures var s := WithStraggler(AfterBothWrites());
            Quiescent(s) && AllDone(s.doc.tasks) && AllTasksDone in s.log && s.doc.status == TurnaroundInProgress
  {
    BothWritten();
    StragglerOverwrites(AfterBothWrites());
  }

  /** Two milestone updates that each pass the checks leave TSAT before TOBT. */
  lemma MilestoneRaceBreaksOrder(doc: Doc)
    requires doc.milestones.tobt == None && doc.milestones.tsat == None && doc.milestones.aobt == None
    ensures var late, early := NO_MILESTONES.(tobt := Some(10)), NO_MILESTONES.(tsat := Some(5));
            var s0 := State(doc, [MilestonesCalled(late), MilestonesCalled(early)], [], 0, false);
            var s4 := Continued(Continued(Continued(Continued(s0, 0, 0), 1, 0), 0, 0), 1, 0);
            Ordered(doc.milestones) && !Ordered(s4.doc.milestones) && s4.calls == [Changed, Changed]
  {
  }
}
