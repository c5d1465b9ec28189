/**
  Gate-conflict detection in the flight service: an update is committed first and checked for overlaps afterwards.
  Times are seconds; gates and flights are opaque identifiers.
*/
module Gates {
  import opened Transitions
  import opened Wrappers

  type FlightId = nat
  type GateId = nat
  type Time = int

  const THREE_HOURS := 3 * 3600

  datatype Status = Scheduled | Arrived | Boarding | Departed | Cancelled | Diverted

  datatype Flight = Flight(
    scheduledArrival: Option<Time>, scheduledDeparture: Option<Time>,
    actualArrival: Option<Time>, actualDeparture: Option<Time>, gate: Option<GateId>, status: Status)

  /** UpdateFlightRequest: absent fields are left alone. */
  datatype Request = Request(status: Option<Status>, actualArrival: Option<Time>, actualDeparture: Option<Time>,
                             gate: Option<GateId>)

  datatype Event =
    | StatusChanged(flight: FlightId, oldStatus: Status, newStatus: Status)
    | GateChanged(flight: FlightId, from: Option<GateId>, to: Option<GateId>)
    | GateConflict(flight: FlightId, other: FlightId, gate: GateId)

  predicate Active(f: Flight) {
    f.status != Departed && f.status != Cancelled && f.status != Diverted
  }

  function Coalesce(a: Option<Time>, b: Option<Time>): Option<Time> {
    if a.Some? then a else b
  }

  function PlusThreeHours(t: Option<Time>): Option<Time> {
    if t.Some? then Some(t.value + THREE_HOURS) else None
  }

  /** SQL's `a < b`, which is not true when either side is NULL. */
  predicate Less(a: Option<Time>, b: Time) {
    a.Some? && a.value < b
  }

  predicate Greater(a: Option<Time>, b: Time) {
    a.Some? && a.value > b
  }

  /** The query of FindConflictingFlights, row by row; without an arrival time nothing is found. */
  predicate Conflicting(flights: map<FlightId, Flight>, gate: GateId, self: FlightId, arrival: Option<Time>,
                        departure: Option<Time>, other: FlightId)
  {
    && arrival.Some?
    && other in flights && other != self
    && var end := if departure.Some? then departure.value else arrival.value + THREE_HOURS;
       var f := flights[other];
       var start := Coalesce(f.scheduledArrival, f.actualArrival);
       && f.gate == Some(gate) && Active(f)
       && Less(start, end)
       && Greater(Coalesce(f.scheduledDeparture, PlusThreeHours(start)), arrival.value)
  }

  function FindConflictingFlights(flights: map<FlightId, Flight>, gate: GateId, self: FlightId, arrival: Option<Time>,
                                  departure: Option<Time>): set<FlightId>
  {
    set other | other in flights && Conflicting(flights, gate, self, arrival, departure, other)
  }

  // ---------- Scheduled windows ----------

  function ScheduledEnd(f: Flight): Time
    requires f.scheduledArrival.Some?
  {
    if f.scheduledDeparture.Some? then f.scheduledDeparture.value else f.scheduledArrival.value + THREE_HOURS
  }

  predicate Overlap(f: Flight, g: Flight) {
    && f.scheduledArrival.Some? && g.scheduledArrival.Some?
    && f.scheduledArrival.value < ScheduledEnd(g) && g.scheduledArrival.value < ScheduledEnd(f)
  }

  /** Two different active flights stand on one gate with overlapping scheduled windows. */
  predicate Clash(flights: map<FlightId, Flight>, a: FlightId, b: FlightId) {
    && a in flights && b in flights && a != b
    && flights[a].gate.Some? && flights[a].gate == flights[b].gate
    && Active(flights[a]) && Active(flights[b])
    && Overlap(flights[a], flights[b])
  }

  /** The query, asked about a flight at its gate. */
  function ConflictsOf(flights: map<FlightId, Flight>, id: FlightId): set<FlightId>
    requires id in flights && flights[id].gate.Some?
  {
    FindConflictingFlights(flights, flights[id].gate.value, id, flights[id].scheduledArrival,
                           flights[id].scheduledDeparture)
  }

  /** For flights with scheduled arrivals the query is the symmetric clash relation. */
  lemma QueryFindsTheClashes(flights: map<FlightId, Flight>, a: FlightId, b: FlightId)
    requires a in flights && flights[a].gate.Some? && Active(flights[a])
    requires b in flights ==> flights[b].scheduledArrival.Some?
    requires flights[a].scheduledArrival.Some?
    ensures b in ConflictsOf(flights, a) <==> Clash(flights, a, b)
    ensures Clash(flights, a, b) <==> Clash(flights, b, a)
  {
  }

  /**
    The query itself is symmetric between two active flights of a gate exactly when neither sees the other,
    or both have a scheduled arrival: a flight known only by its actual arrival is found but never finds.
  */
  lemma QueryIsSymmetricIff(flights: map<FlightId, Flight>, gate: GateId, a: FlightId, b: FlightId)
    requires a in flights && b in flights && a != b
    requires flights[a].gate == flights[b].gate == Some(gate) && Active(flights[a]) && Active(flights[b])
    requires Conflicting(flights, gate, a, flights[a].scheduledArrival, flights[a].scheduledDeparture, b)
    ensures Conflicting(flights, gate, b, flights[b].scheduledArrival, flights[b].scheduledDeparture, a) <==>
            flights[b].scheduledArrival.Some?
  {
  }

  // ---------- One update ----------

  /** The single UPDATE statement. */
  function Updated(f: Flight, req: Request): Flight {
    f.(status := if req.status.Some? then req.status.value else f.status,
       actualArrival := Override(f.actualArrival, req.actualArrival),
       actualDeparture := Override(f.actualDeparture, req.actualDeparture),
       gate := Override(f.gate, req.gate))
  }

  predicate NothingToUpdate(req: Request) {
    req.status == None && req.actualArrival == None && req.actualDeparture == None && req.gate == None
  }

  predicate StatusMoves(before: Flight, req: Request) {
    req.status.Some? && req.status.value != before.status
  }

  predicate GateMoves(before: Flight, req: Request) {
    req.gate.Some? && before.gate != req.gate
  }

  // ---------- Overlapping updates as a state machine ----------

  /** An update between its database steps; `before` and `after` are the rows it read and wrote. */
  datatype Update =
    | Requested(flight: FlightId, req: Request)
    | Fetched(flight: FlightId, req: Request, before: Flight)
    | Committed(flight: FlightId, req: Request, before: Flight, after: Flight)
    | Finished(flight: FlightId)

  /**
    `log` holds what each check published, in turn; `since(a, b)` is the length it had when the pair last began to
    clash.
  */
  datatype State = State(flights: map<FlightId, Flight>, updates: seq<Update>, log: seq<set<Event>>,
                         since: (FlightId, FlightId) -> nat)

  datatype Action =
    | Create(id: FlightId, row: Flight)
    | Begin(flight: FlightId, req: Request)
    | Continue(i: nat)

  /** The conflict events of a check that reads the table as it is. */
  function ConflictEvents(flights: map<FlightId, Flight>, id: FlightId, after: Flight): set<Event> {
    if after.gate == None then {}
    else set other | other in FindConflictingFlights(flights, after.gate.value, id, after.scheduledArrival,
                                                     after.scheduledDeparture) ::
           GateConflict(id, other, after.gate.value)
  }

  function Published(flights: map<FlightId, Flight>, u: Update): set<Event>
    requires u.Committed?
  {
    (if StatusMoves(u.before, u.req) then {StatusChanged(u.flight, u.before.status, u.after.status)} else {})
    + (if GateMoves(u.before, u.req)
       then {GateChanged(u.flight, u.before.gate, u.after.gate)} + ConflictEvents(flights, u.flight, u.after) else {})
  }

  function Began(s: State, flights: map<FlightId, Flight>): (FlightId, FlightId) -> nat {
    (a: FlightId, b: FlightId) =>
      (if Clash(flights, a, b) && !Clash(s.flights, a, b) then |s.log| else s.since(a, b)) as nat
  }

  /** The table changes, and pairs may begin to clash. */
  function WithFlights(s: State, flights: map<FlightId, Flight>): State {
    s.(flights := flights, since := Began(s, flights))
  }

  function Advance(s: State, i: nat): State
    requires i < |s.updates| && s.updates[i].flight in s.flights
  {
    match s.updates[i]
    case Requested(id, req) => s.(updates := s.updates[i := Fetched(id, req, s.flights[id])])
    case Fetched(id, req, before) =>
      var after := Updated(s.flights[id], req);
      WithFlights(s, s.flights[id := after]).(updates := s.updates[i := Committed(id, req, before, after)])
    case Committed(id, req, before, after) =>
      s.(updates := s.updates[i := Finished(id)], log := s.log + [Published(s.flights, s.updates[i])])
    case Finished(_) => s
  }

  /** This update has moved the flight to the gate it is on now, and has still to check there. */
  predicate Checks(s: State, u: Update, id: FlightId) {
    u.Committed? && u.flight == id && GateMoves(u.before, u.req) && id in s.flights &&
    u.after.gate == s.flights[id].gate
  }

  ghost predicate WillCheck(s: State, id: FlightId) {
    exists i :: 0 <= i < |s.updates| && Checks(s, s.updates[i], id)
  }

  /**
    Whether the code can take this step: creation under a new id, a request for an existing flight, any step of an
    update.
  */
  ghost predicate Enabled(s: State, a: Action) {
    match a
    case Create(id, _) => id !in s.flights
    case Begin(id, req) => id in s.flights && !NothingToUpdate(req)
    case Continue(i) => i < |s.updates| && s.updates[i].flight in s.flights
  }

  ghost predicate Next(s: State, a: Action, s': State) {
    Enabled(s, a) &&
    match a
    case Create(id, f) => s' == WithFlights(s, s.flights[id := f])
    case Begin(id, req) => s' == s.(updates := s.updates + [Requested(id, req)])
    case Continue(i) => s' == Advance(s, i)
  }

  ghost predicate Initial(s: State) {
    s.flights == map[] && s.updates == [] && s.log == []
  }

  ghost predicate Quiescent(s: State) {
    forall i :: 0 <= i < |s.updates| ==> s.updates[i].Finished?
  }

  /** An event for the pair on this gate, from either side. */
  predicate ReportedOn(log: set<Event>, a: FlightId, b: FlightId, gate: GateId) {
    GateConflict(a, b, gate) in log || GateConflict(b, a, gate) in log
  }

  /** Since the pair last began to clash, a check has published an event for it on its gate. */
  ghost predicate Reported(s: State, a: FlightId, b: FlightId)
    requires a in s.flights && s.flights[a].gate.Some?
  {
    exists n :: s.since(a, b) <= n < |s.log| && ReportedOn(s.log[n], a, b, s.flights[a].gate.value)
  }

  // ---------- What can go wrong ----------

  /**
    The commit gives the stored flight a new gate, or makes it active again, while the row that was read before already
    had the requested gate: the update sees no gate change and will not check.
  */
  predicate Blind(stored: Flight, before: Flight, req: Request) {
    !GateMoves(before, req) && (GateMoves(stored, req) || (!Active(stored) && Active(Updated(stored, req))))
  }

  /** Every active flight on the new flight's gate that overlaps it has still to check. */
  ghost predicate Clear(s: State, f: Flight) {
    f.gate.Some? && Active(f) ==>
      forall other ::
        other in s.flights && s.flights[other].gate == f.gate && Active(s.flights[other]) &&
        Overlap(f, s.flights[other])
        ==> WillCheck(s, other)
  }

  /** Some update of the flight has moved it to this gate and has still to check. */
  ghost predicate WillCheckOn(s: State, id: FlightId, gate: GateId) {
    exists i :: 0 <= i < |s.updates| && s.updates[i].Committed? && s.updates[i].flight == id
                && GateMoves(s.updates[i].before, s.updates[i].req) && s.updates[i].after.gate == Some(gate)
  }

  /** The flight as it is about to be committed overlaps another one on its gate, and neither will check there. */
  ghost predicate Unattended(s: State, id: FlightId, f: Flight, other: FlightId) {
    && f.gate.Some? && Active(f)
    && other in s.flights && other != id && s.flights[other].gate == f.gate && Active(s.flights[other])
    && Overlap(f, s.flights[other])
    && !WillCheck(s, other) && !WillCheckOn(s, id, f.gate.value)
  }

  ghost predicate HarmlessCommit(s: State, id: FlightId, before: Flight, req: Request)
    requires id in s.flights
  {
    Blind(s.flights[id], before, req) ==> forall other :: !Unattended(s, id, Updated(s.flights[id], req), other)
  }

  /** A creation performs no check, so it must not need one; a blind commit must leave nobody unattended. */
  ghost predicate Harmless(s: State, a: Action) {
    match a
    case Create(_, f) => Clear(s, f)
    case Begin(_, _) => true
    case Continue(i) =>
      i < |s.updates| && s.updates[i].Fetched? && s.updates[i].flight in s.flights ==>
        HarmlessCommit(s, s.updates[i].flight, s.updates[i].before, s.updates[i].req)
  }

  /** A commit is blind only if another update moved the flight away in between, or it revives a finished flight. */
  lemma BlindMeansOverlap(stored: Flight, before: Flight, req: Request)
    requires Blind(stored, before, req)
    ensures (before.gate == req.gate && stored.gate != req.gate) || (!Active(stored) && Active(Updated(stored, req)))
  {
  }

  // ---------- The invariant ----------

  /** The schedule an update carries is the stored one, which no update changes. */
  ghost predicate Current(s: State, u: Update) {
    && u.flight in s.flights
    && (u.Committed? ==>
          && u.after.scheduledArrival == s.flights[u.flight].scheduledArrival
          && u.after.scheduledDeparture == s.flights[u.flight].scheduledDeparture)
  }

  ghost predicate Covered(s: State, a: FlightId, b: FlightId)
    requires a in s.flights && s.flights[a].gate.Some?
  {
    Reported(s, a, b) || WillCheck(s, a) || WillCheck(s, b)
  }

  ghost predicate Inv(s: State) {
    && (forall i :: 0 <= i < |s.updates| ==> Current(s, s.updates[i]))
    && (forall a, b :: Clash(s.flights, a, b) ==> s.since(a, b) <= |s.log| && Covered(s, a, b))
  }

  /** Exactly when creating a flight, which performs no check, leaves every clash reported or about to be checked. */
  lemma CreationIsSafeIff(s: State, id: FlightId, f: Flight)
    requires Inv(s) && id !in s.flights
    ensures Inv(WithFlights(s, s.flights[id := f])) <==> Clear(s, f)
  {
    var s' := WithFlights(s, s.flights[id := f]);
    assert forall i :: 0 <= i < |s.updates| ==> Current(s, s.updates[i]) && s.updates[i].flight != id;
    assert forall i, x :: 0 <= i < |s.updates| ==> (Checks(s', s'.updates[i], x) <==> Checks(s, s.updates[i], x));
    assert forall x :: WillCheck(s', x) <==> WillCheck(s, x);
    if Clear(s, f) {
      forall a: FlightId, b: FlightId | Clash(s'.flights, a, b)
        ensures s'.since(a, b) <= |s'.log| && Covered(s', a, b)
      {
        if a != id && b != id {
          assert Clash(s.flights, a, b);
        }
      }
    } else {
      var other :| other in s.flights && s.flights[other].gate == f.gate && Active(s.flights[other])
                   && Overlap(f, s.flights[other]) && !WillCheck(s, other);
      assert Clash(s'.flights, id, other) && s'.since(id, other) == |s.log|;
      assert !Covered(s', id, other);
    }
  }

  lemma BeginKeepsInv(s: State, id: FlightId, req: Request, s': State)
    requires Inv(s) && Next(s, Begin(id, req), s')
    ensures Inv(s')
  {
    forall x | WillCheck(s, x) ensures WillCheck(s', x) {
      var j :| 0 <= j < |s.updates| && Checks(s, s.updates[j], x);
      assert Checks(s', s'.updates[j], x);
    }
    forall a, b | Clash(s'.flights, a, b) ensures s'.since(a, b) <= |s'.log| && Covered(s', a, b) {
      assert Clash(s.flights, a, b);
    }
  }

  /** A step that neither performs the check nor changes the flight's gate leaves the check pending. */
  lemma WillCheckKept(s: State, i: nat, id: FlightId)
    requires i < |s.updates| && s.updates[i].flight in s.flights && WillCheck(s, id)
    requires !Checks(s, s.updates[i], id)
    requires Advance(s, i).flights[id].gate == s.flights[id].gate
    ensures WillCheck(Advance(s, i), id)
  {
    var j :| 0 <= j < |s.updates| && Checks(s, s.updates[j], id);
    assert Checks(Advance(s, i), Advance(s, i).updates[j], id);
  }

  /** A clash that was covered and goes on stays covered, unless the step performs the check it waits for. */
  lemma CoveredKept(s: State, i: nat, a: FlightId, b: FlightId)
    requires Inv(s) && i < |s.updates| && s.updates[i].flight in s.flights
    requires Clash(s.flights, a, b) && Clash(Advance(s, i).flights, a, b)
    requires Advance(s, i).flights[a].gate == s.flights[a].gate && Advance(s, i).flights[b].gate == s.flights[b].gate
    requires !Checks(s, s.updates[i], a) && !Checks(s, s.updates[i], b)
    ensures Advance(s, i).since(a, b) <= |Advance(s, i).log| && Covered(Advance(s, i), a, b)
  {
    var s' := Advance(s, i);
    assert Covered(s, a, b);
    if Reported(s, a, b) {
      var n :| s.since(a, b) <= n < |s.log| && ReportedOn(s.log[n], a, b, s.flights[a].gate.value);
      assert s'.log[n] == s.log[n];
    } else if WillCheck(s, a) {
      WillCheckKept(s, i, a);
    } else {
      WillCheckKept(s, i, b);
    }
  }

  lemma ReadKeepsInv(s: State, i: nat)
    requires Inv(s) && i < |s.updates| && s.updates[i].Requested?
    ensures Inv(Advance(s, i))
  {
    assert Current(s, s.updates[i]);
    forall a, b | Clash(Advance(s, i).flights, a, b)
      ensures Advance(s, i).since(a, b) <= |Advance(s, i).log| && Covered(Advance(s, i), a, b)
    {
      CoveredKept(s, i, a, b);
    }
  }

  lemma CommitKeepsCurrent(s: State, i: nat)
    requires Inv(s) && i < |s.updates| && s.updates[i].Fetched?
    ensures s.updates[i].flight in s.flights
    ensures forall j :: 0 <= j < |s.updates| ==> Current(Advance(s, i), Advance(s, i).updates[j])
  {
    assert Current(s, s.updates[i]);
    forall j | 0 <= j < |s.updates| ensures Current(Advance(s, i), Advance(s, i).updates[j]) {
      assert Current(s, s.updates[j]);
    }
  }

  /** After a commit that is not blind, a clash of its flight is about to be checked, or went on all the time. */
  lemma SeeingCommitCovers(s: State, i: nat, a: FlightId, b: FlightId)
    requires Inv(s) && i < |s.updates| && s.updates[i].Fetched? && s.updates[i].flight in s.flights
    requires !Blind(s.flights[s.updates[i].flight], s.updates[i].before, s.updates[i].req)
    requires (a == s.updates[i].flight || b == s.updates[i].flight) && Clash(Advance(s, i).flights, a, b)
    ensures Advance(s, i).since(a, b) <= |Advance(s, i).log| && Covered(Advance(s, i), a, b)
  {
    var u, s' := s.updates[i], Advance(s, i);
    if GateMoves(u.before, u.req) {
      assert Checks(s', s'.updates[i], u.flight);
      assert Clash(s.flights, a, b) ==> s.since(a, b) <= |s.log|;
    } else {
      assert Clash(s.flights, a, b);
      CoveredKept(s, i, a, b);
    }
  }

  /** After a blind commit, every clash of its flight has just begun, and it is covered exactly if it is attended to. */
  lemma BlindCommitCoversIff(s: State, i: nat, other: FlightId)
    requires Inv(s) && i < |s.updates| && s.updates[i].Fetched? && s.updates[i].flight in s.flights
    requires Blind(s.flights[s.updates[i].flight], s.updates[i].before, s.updates[i].req)
    requires Clash(Advance(s, i).flights, s.updates[i].flight, other)
    ensures var s', id := Advance(s, i), s.updates[i].flight;
            && s'.since(id, other) == s'.since(other, id) == |s'.log|
            && Clash(s'.flights, other, id)
            && (Covered(s', id, other) <==> !Unattended(s, id, s'.flights[id], other))
            && (Covered(s', other, id) <==> Covered(s', id, other))
  {
    var s', id := Advance(s, i), s.updates[i].flight;
    var gate := s'.flights[id].gate.value;
    assert !Clash(s.flights, id, other) && !Clash(s.flights, other, id) && Clash(s'.flights, other, id);
    assert forall j :: 0 <= j < |s.updates| && j != i ==> s'.updates[j] == s.updates[j];
    assert forall j :: 0 <= j < |s.updates| ==> (Checks(s', s'.updates[j], other) <==> Checks(s, s.updates[j], other));
    assert WillCheck(s', other) <==> WillCheck(s, other);
    if WillCheckOn(s, id, gate) {
      var j :| 0 <= j < |s.updates| && s.updates[j].Committed? && s.updates[j].flight == id
               && GateMoves(s.updates[j].before, s.updates[j].req) && s.updates[j].after.gate == Some(gate);
      assert Checks(s', s'.updates[j], id);
    }
  }

  /**
    A commit loses the guarantee exactly when it is blind and its flight then overlaps another one that nobody attends
    to.
  */
  lemma CommitKeepsInvIff(s: State, i: nat)
    requires Inv(s) && i < |s.updates| && s.updates[i].Fetched? && s.updates[i].flight in s.flights
    ensures Inv(Advance(s, i)) <==> HarmlessCommit(s, s.updates[i].flight, s.updates[i].before, s.updates[i].req)
  {
    var u, s' := s.updates[i], Advance(s, i);
    var id := u.flight;
    CommitKeepsCurrent(s, i);
    if HarmlessCommit(s, id, u.before, u.req) {
      forall a: FlightId, b: FlightId | Clash(s'.flights, a, b)
        ensures s'.since(a, b) <= |s'.log| && Covered(s', a, b)
      {
        if a != id && b != id {
          assert Clash(s.flights, a, b);
          CoveredKept(s, i, a, b);
        } else if Blind(s.flights[id], u.before, u.req) {
          BlindCommitCoversIff(s, i, if a == id then b else a);
        } else {
          SeeingCommitCovers(s, i, a, b);
        }
      }
    } else {
      var other :| Unattended(s, id, Updated(s.flights[id], u.req), other);
      assert Clash(s'.flights, id, other);
      BlindCommitCoversIff(s, i, other);
    }
  }

  lemma CheckKeepsInv(s: State, i: nat)
    requires Inv(s) && i < |s.updates| && s.updates[i].Committed?
    ensures Inv(Advance(s, i))
  {
    var u, s' := s.updates[i], Advance(s, i);
    assert Current(s, u);
    forall a, b | Clash(s'.flights, a, b) ensures s'.since(a, b) <= |s'.log| && Covered(s', a, b) {
      assert Clash(s.flights, a, b);
      if Checks(s, u, a) {
        CheckReports(s, i, a, b);
      } else if Checks(s, u, b) {
        CheckReports(s, i, b, a);
      } else {
        CoveredKept(s, i, a, b);
      }
    }
  }

  /** The check reports every clash of its flight. */
  lemma CheckReports(s: State, i: nat, id: FlightId, other: FlightId)
    requires i < |s.updates| && Checks(s, s.updates[i], id) && Current(s, s.updates[i])
    requires Clash(s.flights, id, other) || Clash(s.flights, other, id)
    ensures Advance(s, i).log[..|s.log|] == s.log && |Advance(s, i).log| == |s.log| + 1
    ensures ReportedOn(Advance(s, i).log[|s.log|], id, other, s.flights[id].gate.value)
  {
    var u := s.updates[i];
    QueryFindsTheClashes(s.flights, id, other);
    assert GateConflict(id, other, u.after.gate.value) in ConflictEvents(s.flights, id, u.after);
  }

  /** Each step keeps the guarantee exactly when it is harmless. */
  lemma NextKeepsInvIff(s: State, a: Action, s': State)
    requires Inv(s) && Next(s, a, s')
    ensures Inv(s') <==> Harmless(s, a)
  {
    match a
    case Create(id, f) => CreationIsSafeIff(s, id, f);
    case Begin(id, req) => BeginKeepsInv(s, id, req, s');
    case Continue(i) =>
      match s.updates[i] {
        case Requested(_, _) => ReadKeepsInv(s, i);
        case Fetched(_, _, _) => CommitKeepsInvIff(s, i);
        case Committed(_, _, _, _) => CheckKeepsInv(s, i);
        case Finished(_) =>
      }
  }

  /**
    Over a whole run, at every moment each clash has been reported since it began or is about to be checked, if and
    only if every creation and every commit of the run is harmless.
  */
  lemma GuaranteedIff(states: seq<State>, actions: seq<Action>, k: nat)
    requires Execution(Next, states, actions) && Initial(states[0]) && k <= |actions|
    ensures (forall j :: 0 <= j <= k ==> Inv(states[j])) <==>
            (forall j :: 0 <= j < k ==> Harmless(states[j], actions[j]))
  {
    forall j | 0 <= j < k && Inv(states[j]) ensures Inv(states[j + 1]) <==> Harmless(states[j], actions[j]) {
      NextKeepsInvIff(states[j], actions[j], states[j + 1]);
    }
    if forall j :: 0 <= j < k ==> Harmless(states[j], actions[j]) {
      forall j | 0 <= j <= k ensures Inv(states[j]) {
        HoldsAlways(Next, Inv, states, actions, j);
      }
    } else {
      var j :| 0 <= j < k && !Harmless(states[j], actions[j]);
      assert Inv(states[j]) ==> !Inv(states[j + 1]);
    }
  }

  /**
    Conflict detection is complete: in every interleaving of any number of updates, also of one flight, in which no
    creation and no blind commit does harm, once all have finished each pair of active flights on one gate with
    overlapping scheduled windows has had a flight.gate.conflict event for that gate since it last came to overlap
    there.
  */
  lemma ConflictsAreReported(states: seq<State>, actions: seq<Action>, k: nat, a: FlightId, b: FlightId)
    requires Execution(Next, states, actions) && Initial(states[0]) && k <= |actions|
    requires forall j :: 0 <= j < k ==> Harmless(states[j], actions[j])
    requires Quiescent(states[k]) && Clash(states[k].flights, a, b)
    ensures Reported(states[k], a, b)
  {
    GuaranteedIff(states, actions, k);
    assert Covered(states[k], a, b);
  }

  /** While a pair goes on clashing, `since` stays at the number of checks performed before it began. */
  lemma {:induction false} SinceIsTheBeginning(states: seq<State>, actions: seq<Action>, j: nat, k: nat, a: FlightId,
                                               b: FlightId)
    requires Execution(Next, states, actions) && j < k <= |actions|
    requires !Clash(states[j].flights, a, b) && forall i :: j < i <= k ==> Clash(states[i].flights, a, b)
    ensures states[k].since(a, b) == |states[j].log|
  {
    assert Next(states[k - 1], actions[k - 1], states[k]);
    if j < k - 1 {
      SinceIsTheBeginning(states, actions, j, k - 1, a, b);
    }
  }

  // ---------- A blind commit, step by step ----------

  /** An empty table with nothing published. */
  function Empty(): State {
    State(map[], [], [], (a: FlightId, b: FlightId) => 0)
  }

  ghost predicate Reachable(s: State) {
    Reaches(Next, Empty(), s)
  }

  function Window(gate: Option<GateId>): Flight {
    Flight(Some(0), Some(100), None, None, gate, Scheduled)
  }

  function MoveTo(gate: GateId): Request {
    Request(None, None, None, Some(gate))
  }

  lemma Step(s: State, a: Action, s': State)
    requires Reachable(s) && Next(s, a, s')
    ensures Reachable(s')
  {
    ReachesNext(Next, Empty(), s, a, s');
  }

  function Requests(): seq<Update> {
    [Requested(1, MoveTo(20)), Requested(1, MoveTo(10)), Requested(2, MoveTo(10))]
  }

  function TwoFlights(first: GateId, second: Option<GateId>): map<FlightId, Flight> {
    map[1 := Window(Some(first)), 2 := Window(second)]
  }

  /** Flight 1 is on gate 10; two updates of it and one of flight 2 have been requested. */
  lemma ThreeRequested() returns (s: State)
    ensures Reachable(s) && s.flights == TwoFlights(10, None) && s.updates == Requests() && s.log == []
  {
    ReachesItself(Next, Empty());
    var s1 := WithFlights(Empty(), map[1 := Window(Some(10))]);
    Step(Empty(), Create(1, Window(Some(10))), s1);
    var s2 := WithFlights(s1, TwoFlights(10, None));
    assert s2.flights == s1.flights[2 := Window(None)];
    Step(s1, Create(2, Window(None)), s2);
    var s3 := s2.(updates := Requests()[..1]);
    Step(s2, Begin(1, MoveTo(20)), s3);
    var s4 := s2.(updates := Requests()[..2]);
    Step(s3, Begin(1, MoveTo(10)), s4);
    s := s2.(updates := Requests());
    Step(s4, Begin(2, MoveTo(10)), s);
  }

  /** All three have read; both updates of flight 1 saw it on gate 10. */
  lemma ThreeRead() returns (s: State)
    ensures Reachable(s) && s.flights == TwoFlights(10, None) && s.log == []
    ensures s.updates == [Fetched(1, MoveTo(20), Window(Some(10))), Fetched(1, MoveTo(10), Window(Some(10))),
                          Fetched(2, MoveTo(10), Window(None))]
  {
    var s0 := ThreeRequested();
    var s1 := Advance(s0, 0);
    Step(s0, Continue(0), s1);
    var s2 := Advance(s1, 1);
    Step(s1, Continue(1), s2);
    s := Advance(s2, 2);
    Step(s2, Continue(2), s);
  }

  /** Flight 1 has left for gate 20 and still has to check; flight 2 has moved to gate 10 and checked. */
  lemma SecondFlightMoved() returns (s: State)
    ensures Reachable(s) && s.flights == TwoFlights(20, Some(10)) && |s.log| == 1
    ensures s.updates == [Committed(1, MoveTo(20), Window(Some(10)), Window(Some(20))),
                          Fetched(1, MoveTo(10), Window(Some(10))), Finished(2)]
  {
    var s0 := ThreeRead();
    var s1 := Advance(s0, 0);
    Step(s0, Continue(0), s1);
    assert s1.flights == TwoFlights(20, None);
    var s2 := Advance(s1, 2);
    Step(s1, Continue(2), s2);
    assert s2.flights == TwoFlights(20, Some(10));
    s := Advance(s2, 2);
    Step(s2, Continue(2), s);
  }

  /** Then the second update of flight 1 blindly brings it back to gate 10. */
  lemma FirstFlightBack() returns (s: State)
    ensures Reachable(s) && s.flights == TwoFlights(10, Some(10)) && |s.log| == 1 && s.since(1, 2) == 1
    ensures s.updates == [Committed(1, MoveTo(20), Window(Some(10)), Window(Some(20))),
                          Committed(1, MoveTo(10), Window(Some(10)), Window(Some(10))), Finished(2)]
  {
    var s0 := SecondFlightMoved();
    assert Blind(s0.flights[1], s0.updates[1].before, s0.updates[1].req);
    s := Advance(s0, 1);
    Step(s0, Continue(1), s);
    assert s.flights == TwoFlights(10, Some(10)) && !Clash(s0.flights, 1, 2) && Clash(s.flights, 1, 2);
  }

  /** Neither check of flight 1 looks at gate 10 after that: a conflict that is never reported. */
  lemma TwoUpdatesOfOneFlightMissAConflict() returns (s: State)
    ensures Reachable(s) && Quiescent(s) && Clash(s.flights, 1, 2) && !Reported(s, 1, 2)
  {
    var s0 := FirstFlightBack();
    var s1 := Advance(s0, 1);
    Step(s0, Continue(1), s1);
    s := Advance(s1, 0);
    Step(s1, Continue(0), s);
    forall n | 1 <= n < |s.log| ensures !ReportedOn(s.log[n], 1, 2, 10) {
      assert n == 1 || n == 2;
    }
  }
}
