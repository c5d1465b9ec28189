/** Overlapping milestone updates of one turnaround: which of them leave TOBT, TSAT and AOBT in order. */
module MilestoneOrder {
  import opened Wrappers
  import opened Turnaround
  import opened Completion
  import opened Transitions

  /**
    The pair of milestones stays in order where one of the two changes sets its later and the other its earlier half.
  */
  predicate CrossOrdered(firstEarlier: Option<Instant>, firstLater: Option<Instant>,
                         secondEarlier: Option<Instant>, secondLater: Option<Instant>) {
    && (secondLater == None ==> NotBefore(firstLater, secondEarlier))
    && (secondEarlier == None ==> NotBefore(secondLater, firstEarlier))
  }

  /** What two requests must satisfy between them when the first is written before the second. */
  predicate Compatible(first: Milestones, second: Milestones) {
    && CrossOrdered(first.tobt, first.tsat, second.tobt, second.tsat)
    && CrossOrdered(first.tsat, first.aobt, second.tsat, second.aobt)
  }

  /**
    Of two changes that both passed the checks, the second still passes after the first is written exactly when they
    are compatible.
  */
  lemma StillValidIff(stored: Milestones, first: Milestones, second: Milestones)
    requires Validates(stored, first) && Validates(stored, second)
    ensures Validates(Merge(stored, first), second) <==> Compatible(first, second)
  {
  }

  /** The stored milestones are in order, and every checked change in flight would still pass the checks. */
  ghost predicate Inv(s: State) {
    && Ordered(s.doc.milestones)
    && forall i :: 0 <= i < |s.calls| && s.calls[i].Checked? ==> Validates(s.doc.milestones, s.calls[i].changes)
  }

  /** Any two changes between check and write could be written in either order. */
  ghost predicate AllCompatible(s: State) {
    forall i, j :: 0 <= i < |s.calls| && 0 <= j < |s.calls| && i != j && s.calls[i].Checked? && s.calls[j].Checked? ==>
      Compatible(s.calls[i].changes, s.calls[j].changes)
  }

  /** At most one change is between check and write. */
  ghost predicate OneAtATime(s: State) {
    forall i, j :: 0 <= i < j < |s.calls| ==> !s.calls[i].Checked? || !s.calls[j].Checked?
  }

  lemma WriteKeepsInv(s: State, i: nat, now: Instant)
    requires Inv(s) && AllCompatible(s) && i < |s.calls| && s.calls[i].Checked?
    ensures Inv(Continued(s, i, now))
  {
    var s', changes := Continued(s, i, now), s.calls[i].changes;
    ValidationIsExact(s.doc, changes);
    forall j | 0 <= j < |s'.calls| && s'.calls[j].Checked?
      ensures Validates(s'.doc.milestones, s'.calls[j].changes)
    {
      assert s'.calls[j] == s.calls[j];
      StillValidIff(s.doc.milestones, changes, s.calls[j].changes);
    }
  }

  /** A step that writes no milestone change leaves the compared milestones alone. */
  lemma OtherStepKeepsInv(s: State, i: nat, now: Instant)
    requires Inv(s) && i < |s.calls| && !s.calls[i].Checked?
    ensures Inv(Continued(s, i, now))
  {
    var s' := Continued(s, i, now);
    assert s'.doc.milestones == s.doc.milestones.(ardt := s'.doc.milestones.ardt);
    forall j | 0 <= j < |s'.calls| && s'.calls[j].Checked?
      ensures Validates(s'.doc.milestones, s'.calls[j].changes)
    {
      if j != i {
        assert Validates(s.doc.milestones, s.calls[j].changes);
      }
    }
  }

  lemma NextKeepsInv(s: State, a: Action, s': State)
    requires Inv(s) && AllCompatible(s) && Next(s, a, s')
    ensures Inv(s')
  {
    if a.Continue? {
      if s.calls[a.i].Checked? {
        WriteKeepsInv(s, a.i, a.now);
      } else {
        OtherStepKeepsInv(s, a.i, a.now);
      }
    }
  }

  /**
    In every interleaving with any other calls, as long as the changes in flight are compatible, the milestones are
    always in order.
  */
  lemma {:induction false} MilestonesStayOrdered(states: seq<State>, actions: seq<Action>, k: nat)
    requires Execution(Next, states, actions) && Inv(states[0]) && k <= |actions|
    requires forall j :: 0 <= j < k ==> AllCompatible(states[j])
    ensures Inv(states[k])
  {
    if k > 0 {
      MilestonesStayOrdered(states, actions, k - 1);
      NextKeepsInv(states[k - 1], actions[k - 1], states[k]);
    }
  }

  /**
    In particular they are in order whenever milestone updates do not overlap each other, however task updates
    interleave.
  */
  lemma OneAtATimeStaysOrdered(states: seq<State>, actions: seq<Action>, k: nat)
    requires Execution(Next, states, actions) && Initial(states[0]) && Ordered(states[0].doc.milestones) &&
             k <= |actions|
    requires forall j :: 0 <= j < k ==> OneAtATime(states[j])
    ensures Ordered(states[k].doc.milestones)
  {
    forall j | 0 <= j < k ensures AllCompatible(states[j]) {
      assert OneAtATime(states[j]);
    }
    MilestonesStayOrdered(states, actions, k);
  }

  ghost function BothWritten(s: State, i: nat, j: nat, now: Instant): State
    requires i < |s.calls| && j < |s.calls|
  {
    Continued(Continued(s, i, now), j, now)
  }

  /**
    Of two overlapping updates written one after the other, the milestones stay in order exactly when the requests are
    compatible.
  */
  lemma OverlapKeepsOrderIff(s: State, i: nat, j: nat, now: Instant)
    requires Inv(s) && i < |s.calls| && j < |s.calls| && i != j && s.calls[i].Checked? && s.calls[j].Checked?
    ensures Ordered(BothWritten(s, i, j, now).doc.milestones) <==> Compatible(s.calls[i].changes, s.calls[j].changes)
  {
    var s1 := Continued(s, i, now);
    assert s1.calls[j] == s.calls[j];
    StillValidIff(s.doc.milestones, s.calls[i].changes, s.calls[j].changes);
    ValidationIsExact(s1.doc, s.calls[j].changes);
  }

  // ---------- From any state ----------

  /** Every change between check and write was already there before. */
  ghost predicate NoNewChecks(before: State, after: State) {
    forall i :: 0 <= i < |after.calls| && after.calls[i].Checked? ==>
      i < |before.calls| && before.calls[i] == after.calls[i]
  }

  /** Any step, by which no further change passes the checks. */
  ghost predicate Finishing(s: State, a: Action, s': State) {
    Next(s, a, s') && NoNewChecks(s, s')
  }

  /** However the changes between check and write are written, the milestones stay in order. */
  ghost predicate OrderSurvives(s: State) {
    forall t :: Reaches(Finishing, s, t) ==> Ordered(t.doc.milestones)
  }

  ghost predicate Settled(s: State) {
    Inv(s) && AllCompatible(s)
  }

  lemma FinishingKeepsSettled(s: State, a: Action, s': State)
    requires Settled(s) && Finishing(s, a, s')
    ensures Settled(s')
  {
    NextKeepsInv(s, a, s');
  }

  lemma WriteIsFinishing(s: State, i: nat)
    requires i < |s.calls| && s.calls[i].Checked?
    ensures Finishing(s, Continue(i, 0), Continued(s, i, 0))
    ensures Continued(s, i, 0).calls == s.calls[i := Changed]
  {
  }

  /** A checked change that would no longer pass the checks breaks the order as soon as it is written. */
  lemma InvalidLoses(s: State, i: nat)
    requires i < |s.calls| && s.calls[i].Checked? && !Validates(s.doc.milestones, s.calls[i].changes)
    ensures !OrderSurvives(s)
  {
    WriteIsFinishing(s, i);
    ValidationIsExact(s.doc, s.calls[i].changes);
    ReachesItself(Finishing, s);
    ReachesNext(Finishing, s, s, Continue(i, 0), Continued(s, i, 0));
  }

  /** Two incompatible changes break the order when they are written in turn. */
  lemma IncompatibleLoses(s: State, i: nat, j: nat)
    requires Inv(s) && i < |s.calls| && j < |s.calls| && i != j && s.calls[i].Checked? && s.calls[j].Checked?
    requires !Compatible(s.calls[i].changes, s.calls[j].changes)
    ensures !OrderSurvives(s)
  {
    var s1 := Continued(s, i, 0);
    WriteIsFinishing(s, i);
    WriteIsFinishing(s1, j);
    OverlapKeepsOrderIff(s, i, j, 0);
    ReachesItself(Finishing, s);
    ReachesNext(Finishing, s, s, Continue(i, 0), s1);
    ReachesNext(Finishing, s, s1, Continue(j, 0), BothWritten(s, i, j, 0));
  }

  /**
    From any state with its milestones in order, however the checked changes in flight are written, the order survives
    exactly when each of them would still pass the checks and any two of them are compatible.
  */
  lemma OrderSurvivesIff(s: State)
    requires Ordered(s.doc.milestones)
    ensures OrderSurvives(s) <==> Inv(s) && AllCompatible(s)
  {
    if Settled(s) {
      forall t | Reaches(Finishing, s, t) ensures Ordered(t.doc.milestones) {
        forall s, a, s' | Settled(s) && Finishing(s, a, s') ensures Settled(s') {
          FinishingKeepsSettled(s, a, s');
        }
        HoldsWhereverReached(Finishing, Settled, s, t);
      }
    } else if !Inv(s) {
      var i :| 0 <= i < |s.calls| && s.calls[i].Checked? && !Validates(s.doc.milestones, s.calls[i].changes);
      InvalidLoses(s, i);
    } else {
      var i, j :| 0 <= i < |s.calls| && 0 <= j < |s.calls| && i != j && s.calls[i].Checked? && s.calls[j].Checked? &&
                  !Compatible(s.calls[i].changes, s.calls[j].changes);
      IncompatibleLoses(s, i, j);
    }
  }
}
