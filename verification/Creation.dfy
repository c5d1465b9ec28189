/**
  Overlapping creations of turnarounds: the lookup by flight and the insertion are separate steps, and no index backs
  the lookup.
*/
module Creation {
  import opened Transitions
  import CA = CrewAssignment

  type FlightId = CA.FlightId

  /** A creation before its lookup, or after a lookup that found nothing and before its insertion. */
  datatype Call = Looking(flight: FlightId) | Storing(flight: FlightId) | Done

  /** The flight of every stored turnaround, in insertion order, and the calls in flight. */
  datatype State = State(stored: seq<FlightId>, calls: seq<Call>)

  datatype Action = Begin(flight: FlightId) | Continue(i: nat)

  function Continued(s: State, i: nat): State
    requires i < |s.calls|
  {
    match s.calls[i]
    case Looking(f) => s.(calls := s.calls[i := if f in s.stored then Done else Storing(f)])
    case Storing(f) => State(s.stored + [f], s.calls[i := Done])
    case Done => s
  }

  ghost predicate Next(s: State, a: Action, s': State) {
    match a
    case Begin(f) => s' == s.(calls := s.calls + [Looking(f)])
    case Continue(i) => i < |s.calls| && s' == Continued(s, i)
  }

  /** At most one turnaround per flight. */
  ghost predicate Unique(s: State) {
    forall i, j :: 0 <= i < j < |s.stored| ==> s.stored[i] != s.stored[j]
  }

  /** No two creations of one flight are both past a lookup that found nothing. */
  ghost predicate OneStoring(s: State) {
    forall i, j :: 0 <= i < j < |s.calls| && s.calls[i].Storing? && s.calls[j].Storing? ==>
      s.calls[i].flight != s.calls[j].flight
  }

  ghost predicate Inv(s: State) {
    Unique(s) && forall i :: 0 <= i < |s.calls| && s.calls[i].Storing? ==> s.calls[i].flight !in s.stored
  }

  lemma NextKeepsInv(s: State, a: Action, s': State)
    requires Inv(s) && OneStoring(s) && Next(s, a, s')
    ensures Inv(s')
  {
  }

  /**
    In every interleaving in which no two creations of a flight both missed it at once, each flight gets at most one
    turnaround.
  */
  lemma OneTurnaroundPerFlight(states: seq<State>, actions: seq<Action>, k: nat)
    requires Execution(Next, states, actions) && states[0] == State([], []) && k <= |actions|
    requires forall j :: 0 <= j < k ==> OneStoring(states[j])
    ensures Inv(states[k])
  {
    HoldsAlways(Next, Inv, states, actions, k);
  }

  // ---------- From any state ----------

  predicate Pending(c: Call, f: FlightId) {
    c == Looking(f) || c == Storing(f)
  }

  /** No pending creation can store a second turnaround, whatever the order in which the calls go on. */
  ghost predicate Settled(s: State) {
    && Unique(s)
    && (forall i :: 0 <= i < |s.calls| && s.calls[i].Storing? ==> s.calls[i].flight !in s.stored)
    && (forall i, j, f :: 0 <= i < j < |s.calls| && Pending(s.calls[i], f) && Pending(s.calls[j], f) ==> f in s.stored)
  }

  /** A step of a call in flight. */
  ghost predicate GoesOn(s: State, a: Action, s': State) {
    a.Continue? && Next(s, a, s')
  }

  /** However the calls in flight go on, in any order, each flight keeps at most one turnaround. */
  ghost predicate UniqueSurvives(s: State) {
    forall t :: Reaches(GoesOn, s, t) ==> Unique(t)
  }

  lemma ContinuedKeepsSettled(s: State, i: nat)
    requires Settled(s) && i < |s.calls|
    ensures Settled(Continued(s, i))
  {
    var s' := Continued(s, i);
    forall j, k, f | 0 <= j < k < |s'.calls| && Pending(s'.calls[j], f) && Pending(s'.calls[k], f)
      ensures f in s'.stored
    {
      assert Pending(s.calls[j], f) && Pending(s.calls[k], f);
    }
    if s.calls[i].Storing? {
      forall j | 0 <= j < |s'.calls| && s'.calls[j].Storing? ensures s'.calls[j].flight !in s'.stored {
        assert Pending(s.calls[i], s.calls[i].flight);
        assert s'.calls[j] == s.calls[j] && Pending(s.calls[j], s.calls[j].flight);
      }
    }
  }

  /** If uniqueness can be lost after one more step of a call, it can be lost now. */
  lemma LosesEarlier(s: State, i: nat)
    requires i < |s.calls| && !UniqueSurvives(Continued(s, i))
    ensures !UniqueSurvives(s)
  {
    var t :| Reaches(GoesOn, Continued(s, i), t) && !Unique(t);
    NextReaches(GoesOn, s, Continue(i), Continued(s, i), t);
  }

  lemma StoringTwiceLoses(s: State, i: nat)
    requires i < |s.calls| && s.calls[i].Storing? && s.calls[i].flight in s.stored
    ensures !UniqueSurvives(s)
  {
    var s' := Continued(s, i);
    var k :| 0 <= k < |s.stored| && s.stored[k] == s.calls[i].flight;
    assert s'.stored[k] == s'.stored[|s.stored|];
    ReachesItself(GoesOn, s');
    LosesEarlier(s, i);
  }

  lemma TwoStoringLose(s: State, i: nat, j: nat, f: FlightId)
    requires i < |s.calls| && j < |s.calls| && i != j && s.calls[i] == s.calls[j] == Storing(f)
    ensures !UniqueSurvives(s)
  {
    var s' := Continued(s, i);
    assert s'.stored[|s.stored|] == f;
    StoringTwiceLoses(s', j);
    LosesEarlier(s, i);
  }

  /** A pending creation that has still to look and will miss can be brought to its insertion. */
  lemma TwoPendingLose(s: State, i: nat, j: nat, f: FlightId)
    requires i < |s.calls| && j < |s.calls| && i != j && Pending(s.calls[i], f) && Pending(s.calls[j], f) &&
             f !in s.stored
    ensures !UniqueSurvives(s)
    decreases (if s.calls[i].Looking? then 1 else 0) + (if s.calls[j].Looking? then 1 else 0)
  {
    if s.calls[i].Looking? {
      TwoPendingLose(Continued(s, i), i, j, f);
      LosesEarlier(s, i);
    } else if s.calls[j].Looking? {
      TwoPendingLose(Continued(s, j), i, j, f);
      LosesEarlier(s, j);
    } else {
      TwoStoringLose(s, i, j, f);
    }
  }

  /**
    Each flight keeps at most one turnaround, however the creations in flight go on, exactly when no insertion is
    pending for a flight that has one, and no two creations are pending for a flight that has none.
  */
  lemma UniqueSurvivesIff(s: State)
    requires Unique(s)
    ensures UniqueSurvives(s) <==> Settled(s)
  {
    if Settled(s) {
      forall t | Reaches(GoesOn, s, t) ensures Unique(t) {
        forall s, a, s' | Settled(s) && GoesOn(s, a, s') ensures Settled(s') {
          ContinuedKeepsSettled(s, a.i);
        }
        HoldsWhereverReached(GoesOn, Settled, s, t);
      }
    } else if i :| 0 <= i < |s.calls| && s.calls[i].Storing? && s.calls[i].flight in s.stored {
      StoringTwiceLoses(s, i);
    } else {
      var i, j, f :| 0 <= i < j < |s.calls| && Pending(s.calls[i], f) && Pending(s.calls[j], f) && f !in s.stored;
      TwoPendingLose(s, i, j, f);
    }
  }
}
