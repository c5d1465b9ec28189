/**
  Loop bodies of overlapping handlers, each split into its database steps: the check for an open row, the search, and
  the insertion. No constraint of the table ties them together.
*/
module CrewOverlap {
  import opened Wrappers
  import opened CrewAssignment
  import opened Transitions

  datatype Body =
    | Started(ta: TurnaroundId, info: TaskInfo)                  // before the check
    | Checked(ta: TurnaroundId, info: TaskInfo)                  // saw no open row; before the search
    | Picked(ta: TurnaroundId, info: TaskInfo, member: Member)   // before the insertion
    | Ended

  datatype State = State(rows: seq<Row>, bodies: seq<Body>)

  /** `found` is what the search answers, if this step is the search. */
  datatype Action =
    | Begin(ta: TurnaroundId, info: TaskInfo)
    | Continue(i: nat, dir: Directory, now: Instant, found: Option<Member>)
    | Release(ta: TurnaroundId, task: TaskId)

  function Inserted(rows: seq<Row>, b: Body): seq<Row>
    requires b.Picked? && NeedsCrew(b.info)
  {
    Apply(rows, b.ta, b.info, AssignedTo(b.member))
  }

  ghost predicate Continued(s: State, a: Action, s': State)
    requires a.Continue? && a.i < |s.bodies|
  {
    match s.bodies[a.i]
    case Started(ta, info) =>
      var next := if NeedsCrew(info) && !HasOpen(s.rows, ta, info.id) then Checked(ta, info) else Ended;
      s' == s.(bodies := s.bodies[a.i := next])
    case Checked(ta, info) =>
      && NeedsCrew(info)
      && QueryAnswer(a.dir, s.rows, info.certification.value, a.now, a.found)
      && s' == s.(bodies := s.bodies[a.i := if a.found.Some? then Picked(ta, info, a.found.value) else Ended])
    case Picked(_, info, _) =>
      && NeedsCrew(info)
      && s' == State(Inserted(s.rows, s.bodies[a.i]), s.bodies[a.i := Ended])
    case Ended => s' == s
  }

  ghost predicate Next(s: State, a: Action, s': State) {
    match a
    case Begin(ta, info) => s' == s.(bodies := s.bodies + [Started(ta, info)])
    case Continue(i, _, _, _) => i < |s.bodies| && Continued(s, a, s')
    case Release(ta, task) => s' == s.(rows := Freed(s.rows, ta, task))
  }

  /** Two bodies past the check serve the same task, or two past the search the same crew member. */
  predicate Collide(a: Body, b: Body) {
    || ((a.Checked? || a.Picked?) && (b.Checked? || b.Picked?) && a.ta == b.ta && a.info.id == b.info.id)
    || (a.Picked? && b.Picked? && a.member.id == b.member.id)
  }

  ghost predicate NoCollision(s: State) {
    forall i, j :: 0 <= i < |s.bodies| && 0 <= j < |s.bodies| && i != j ==> !Collide(s.bodies[i], s.bodies[j])
  }

  /** What a body in flight has read is still so. */
  ghost predicate Fresh(rows: seq<Row>, b: Body) {
    && (b.Checked? || b.Picked? ==> NeedsCrew(b.info) && !HasOpen(rows, b.ta, b.info.id))
    && (b.Picked? ==> !Busy(rows, b.member.id))
  }

  ghost predicate Inv(s: State) {
    Exclusive(s.rows) && forall i :: 0 <= i < |s.bodies| ==> Fresh(s.rows, s.bodies[i])
  }

  /**
    The insertion keeps the table exclusive exactly when the member is still free and the task still without an open
    row.
  */
  lemma InsertionKeepsExclusiveIff(rows: seq<Row>, b: Body)
    requires Exclusive(rows) && b.Picked? && NeedsCrew(b.info)
    ensures Exclusive(Inserted(rows, b)) <==> !Busy(rows, b.member.id) && !HasOpen(rows, b.ta, b.info.id)
  {
    var rows' := Inserted(rows, b);
    assert forall i :: 0 <= i < |rows| ==> rows'[i] == rows[i];
    assert Open(rows'[|rows|]);
    if !Busy(rows, b.member.id) && !HasOpen(rows, b.ta, b.info.id) {
      assert forall i :: 0 <= i < |rows| && Open(rows[i]) ==> !OpenFor(rows[i], b.ta, b.info.id);
    }
  }

  /** After the insertion exactly its member and its task have newly become busy and held. */
  lemma InsertionEffect(rows: seq<Row>, b: Body, crew: CrewId, ta: TurnaroundId, task: TaskId)
    requires b.Picked? && NeedsCrew(b.info)
    ensures Busy(Inserted(rows, b), crew) ==> Busy(rows, crew) || crew == b.member.id
    ensures HasOpen(Inserted(rows, b), ta, task) ==> HasOpen(rows, ta, task) || (ta == b.ta && task == b.info.id)
  {
    var rows' := Inserted(rows, b);
    assert forall i :: 0 <= i < |rows| ==> rows'[i] == rows[i];
  }

  lemma ReleaseEffect(rows: seq<Row>, t: TurnaroundId, x: TaskId, crew: CrewId, ta: TurnaroundId, task: TaskId)
    ensures Busy(Freed(rows, t, x), crew) ==> Busy(rows, crew)
    ensures HasOpen(Freed(rows, t, x), ta, task) ==> HasOpen(rows, ta, task)
  {
    var freed := Freed(rows, t, x);
    assert forall i :: 0 <= i < |rows| && Open(freed[i]) ==> freed[i] == rows[i];
  }

  lemma InsertionKeepsInv(s: State, i: nat)
    requires Inv(s) && NoCollision(s) && i < |s.bodies| && s.bodies[i].Picked? && NeedsCrew(s.bodies[i].info)
    ensures Inv(State(Inserted(s.rows, s.bodies[i]), s.bodies[i := Ended]))
  {
    var b := s.bodies[i];
    assert Fresh(s.rows, b);
    InsertionKeepsExclusiveIff(s.rows, b);
    forall j | 0 <= j < |s.bodies| && j != i ensures Fresh(Inserted(s.rows, b), s.bodies[j]) {
      var other := s.bodies[j];
      assert Fresh(s.rows, other) && !Collide(b, other);
      if other.Checked? || other.Picked? {
        InsertionEffect(s.rows, b, if other.Picked? then other.member.id else b.member.id, other.ta, other.info.id);
      }
    }
  }

  lemma ReleaseKeepsInv(s: State, ta: TurnaroundId, task: TaskId)
    requires Inv(s)
    ensures Inv(s.(rows := Freed(s.rows, ta, task)))
  {
    StepKeepsExclusive(s.rows, Free(ta, task), Freed(s.rows, ta, task));
    forall j | 0 <= j < |s.bodies| ensures Fresh(Freed(s.rows, ta, task), s.bodies[j]) {
      var b := s.bodies[j];
      assert Fresh(s.rows, b);
      if b.Checked? || b.Picked? {
        ReleaseEffect(s.rows, ta, task, if b.Picked? then b.member.id else 0, b.ta, b.info.id);
      }
    }
  }

  lemma NextKeepsInv(s: State, a: Action, s': State)
    requires Inv(s) && NoCollision(s) && Next(s, a, s')
    ensures Inv(s')
  {
    match a
    case Begin(_, _) =>
    case Release(ta, task) => ReleaseKeepsInv(s, ta, task);
    case Continue(i, dir, now, found) =>
      assert Fresh(s.rows, s.bodies[i]);
      match s.bodies[i] {
        case Started(_, _) =>
        case Checked(_, info) =>
          if found.Some? {
            AvailabilityQueryIsExact(dir, s.rows, info.certification.value, now, found);
          }
        case Picked(_, _, _) => InsertionKeepsInv(s, i);
        case Ended =>
      }
  }

  /**
    In every interleaving of the steps of any number of bodies with releases, as long as no two bodies in flight
    collide, no crew member and no task ever has two open rows.
  */
  lemma ExclusiveWithoutCollision(states: seq<State>, actions: seq<Action>, k: nat)
    requires Execution(Next, states, actions) && Inv(states[0]) && k <= |actions|
    requires forall j :: 0 <= j < k ==> NoCollision(states[j])
    ensures Inv(states[k])
  {
    forall j | 0 <= j < k && Inv(states[j]) && Next(states[j], actions[j], states[j + 1]) ensures Inv(states[j + 1]) {
      NextKeepsInv(states[j], actions[j], states[j + 1]);
    }
    HoldsAlways(Next, Inv, states, actions, k);
  }

  // ---------- From any state ----------

  /** One of the picked rows is inserted. */
  ghost predicate Inserts(s: State, a: Action, s': State) {
    a.Continue? && a.i < |s.bodies| && s.bodies[a.i].Picked? && Next(s, a, s')
  }

  /** However the picked rows are inserted, in any order, no member and no task gets two open rows. */
  ghost predicate ExclusiveSurvives(s: State) {
    forall t :: Reaches(Inserts, s, t) ==> Exclusive(t.rows)
  }

  /** Only tasks that need crew are searched for. */
  ghost predicate WellFormed(s: State) {
    forall i :: 0 <= i < |s.bodies| && s.bodies[i].Picked? ==> NeedsCrew(s.bodies[i].info)
  }

  /** The picked member is still free, and the task still without an open row. */
  ghost predicate StillFree(rows: seq<Row>, b: Body) {
    b.Picked? ==> !Busy(rows, b.member.id) && !HasOpen(rows, b.ta, b.info.id)
  }

  /** Two picked rows are for one member or for one task. */
  predicate PicksCollide(a: Body, b: Body) {
    a.Picked? && b.Picked? && (a.member.id == b.member.id || (a.ta == b.ta && a.info.id == b.info.id))
  }

  ghost predicate Settled(s: State) {
    && Exclusive(s.rows) && WellFormed(s)
    && (forall i :: 0 <= i < |s.bodies| ==> StillFree(s.rows, s.bodies[i]))
    && (forall i, j :: 0 <= i < j < |s.bodies| ==> !PicksCollide(s.bodies[i], s.bodies[j]))
  }

  function InsertedState(s: State, i: nat): State
    requires i < |s.bodies| && s.bodies[i].Picked? && NeedsCrew(s.bodies[i].info)
  {
    State(Inserted(s.rows, s.bodies[i]), s.bodies[i := Ended])
  }

  function Insertion(i: nat): Action {
    Continue(i, Directory([], [], []), 0, None)
  }

  lemma InsertsKeepsSettled(s: State, i: nat)
    requires Settled(s) && i < |s.bodies| && s.bodies[i].Picked?
    ensures NeedsCrew(s.bodies[i].info) && Settled(InsertedState(s, i))
  {
    var b := s.bodies[i];
    assert StillFree(s.rows, b);
    InsertionKeepsExclusiveIff(s.rows, b);
    forall j | 0 <= j < |s.bodies| && j != i ensures StillFree(Inserted(s.rows, b), s.bodies[j]) {
      var other := s.bodies[j];
      assert StillFree(s.rows, other) &&
             !PicksCollide(s.bodies[if i < j then i else j], s.bodies[if i < j then j else i]);
      if other.Picked? {
        InsertionEffect(s.rows, b, other.member.id, other.ta, other.info.id);
      }
    }
  }

  lemma StaleLoses(s: State, i: nat)
    requires Exclusive(s.rows) && WellFormed(s) && i < |s.bodies| && !StillFree(s.rows, s.bodies[i])
    ensures !ExclusiveSurvives(s)
  {
    InsertionKeepsExclusiveIff(s.rows, s.bodies[i]);
    ReachesItself(Inserts, s);
    ReachesNext(Inserts, s, s, Insertion(i), InsertedState(s, i));
  }

  lemma CollisionLoses(s: State, i: nat, j: nat)
    requires Exclusive(s.rows) && WellFormed(s) && i < |s.bodies| && j < |s.bodies| && i != j
    requires PicksCollide(s.bodies[i], s.bodies[j])
    ensures !ExclusiveSurvives(s)
  {
    if !StillFree(s.rows, s.bodies[i]) {
      StaleLoses(s, i);
    } else {
      var s1 := InsertedState(s, i);
      InsertionKeepsExclusiveIff(s.rows, s.bodies[i]);
      assert Open(s1.rows[|s.rows|]) && OpenFor(s1.rows[|s.rows|], s.bodies[i].ta, s.bodies[i].info.id);
      StaleLoses(s1, j);
      var t :| Reaches(Inserts, s1, t) && !Exclusive(t.rows);
      NextReaches(Inserts, s, Insertion(i), s1, t);
    }
  }

  /**
    However the rows picked by bodies in flight are inserted, the table stays exclusive exactly when each picked member
    is still free, each of their tasks still without an open row, and no two of them are for one member or one task.
  */
  lemma ExclusiveSurvivesIff(s: State)
    requires Exclusive(s.rows) && WellFormed(s)
    ensures ExclusiveSurvives(s) <==> Settled(s)
  {
    if Settled(s) {
      forall t | Reaches(Inserts, s, t) ensures Exclusive(t.rows) {
        forall s, a, s' | Settled(s) && Inserts(s, a, s') ensures Settled(s') {
          InsertsKeepsSettled(s, a.i);
        }
        HoldsWhereverReached(Inserts, Settled, s, t);
      }
    } else if i :| 0 <= i < |s.bodies| && !StillFree(s.rows, s.bodies[i]) {
      StaleLoses(s, i);
    } else {
      var i, j :| 0 <= i < j < |s.bodies| && PicksCollide(s.bodies[i], s.bodies[j]);
      CollisionLoses(s, i, j);
    }
  }

  // ---------- Two events at once ----------

  ghost predicate Reachable(s: State) {
    Reaches(Next, State([], []), s)
  }

  lemma BothStarted(info: TaskInfo) returns (s: State)
    ensures Reachable(s) && s == State([], [Started(0, info), Started(1, info)])
  {
    ReachesItself(Next, State([], []));
    var s1 := State([], [Started(0, info)]);
    ReachesNext(Next, State([], []), State([], []), Begin(0, info), s1);
    s := State([], [Started(0, info), Started(1, info)]);
    ReachesNext(Next, State([], []), s1, Begin(1, info), s);
  }

  lemma BothPicked(dir: Directory, info: TaskInfo, now: Instant, m: Member) returns (s: State)
    requires NeedsCrew(info) && QueryAnswer(dir, [], info.certification.value, now, Some(m))
    ensures Reachable(s) && s == State([], [Picked(0, info, m), Picked(1, info, m)])
  {
    var first, second := Continue(0, dir, now, Some(m)), Continue(1, dir, now, Some(m));
    var s0 := BothStarted(info);
    var s1 := State([], [Checked(0, info), Started(1, info)]);
    ReachesNext(Next, State([], []), s0, first, s1);
    var s2 := State([], [Checked(0, info), Checked(1, info)]);
    ReachesNext(Next, State([], []), s1, second, s2);
    var s3 := State([], [Picked(0, info, m), Checked(1, info)]);
    ReachesNext(Next, State([], []), s2, first, s3);
    s := State([], [Picked(0, info, m), Picked(1, info, m)]);
    ReachesNext(Next, State([], []), s3, second, s);
  }

  /**
    Whenever anyone is available for a task, two events that both search before either inserts assign that one twice.
  */
  lemma DoubleBooking(dir: Directory, info: TaskInfo, now: Instant, m: Member) returns (s: State)
    requires NeedsCrew(info) && QueryAnswer(dir, [], info.certification.value, now, Some(m))
    ensures Reachable(s) && !Exclusive(s.rows)
  {
    var s0 := BothPicked(dir, info, now, m);
    var s1 := State(Inserted([], s0.bodies[0]), [Ended, Picked(1, info, m)]);
    ReachesNext(Next, State([], []), s0, Continue(0, dir, now, Some(m)), s1);
    s := State(Inserted(s1.rows, s1.bodies[1]), [Ended, Ended]);
    ReachesNext(Next, State([], []), s1, Continue(1, dir, now, Some(m)), s);
    assert Open(s.rows[0]) && Open(s.rows[1]) && s.rows[0].crew == s.rows[1].crew;
  }
}
