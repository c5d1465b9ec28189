/** The flight service's update operation, as it runs without interruption. */
module FlightService {
  import opened Wrappers
  import opened Gates

  datatype Result = Updated(flight: Flight) | NothingRequested | InvalidStatus | NoSuchFlight

  /** UpdateFlightRequest as received: the status is still text. */
  datatype Body = Body(status: Option<string>, actualArrival: Option<Time>, actualDeparture: Option<Time>,
                       gate: Option<GateId>)

  /** `FlightStatus.Valid`, and the status the text stands for. */
  function ParseStatus(text: string): Option<Status> {
    if text == "scheduled" then Some(Scheduled)
    else if text == "arrived" then Some(Arrived)
    else if text == "boarding" then Some(Boarding)
    else if text == "departed" then Some(Departed)
    else if text == "cancelled" then Some(Cancelled)
    else if text == "diverted" then Some(Diverted)
    else None
  }

  predicate StatusIsValid(body: Body) {
    body.status.Some? ==> ParseStatus(body.status.value).Some?
  }

  /** The update a body with a valid status asks for. */
  function RequestOf(body: Body): Request
    requires StatusIsValid(body)
  {
    var status := if body.status.Some? then ParseStatus(body.status.value) else None;
    Request(status, body.actualArrival, body.actualDeparture, body.gate)
  }

  predicate IsEmpty(body: Body) {
    body.status == None && body.actualArrival == None && body.actualDeparture == None && body.gate == None
  }

  // ---------- The events of one update, in order ----------

  function ConflictLog(id: FlightId, gate: GateId, others: seq<FlightId>): seq<Event> {
    seq(|others|, i requires 0 <= i < |others| => GateConflict(id, others[i], gate))
  }

  /** The query's rows, each once, in whatever order the database returns them. */
  ghost predicate RowsOf(rows: seq<FlightId>, found: set<FlightId>) {
    && (forall i, j :: 0 <= i < j < |rows| ==> rows[i] != rows[j])
    && (forall other :: other in rows <==> other in found)
  }

  ghost predicate ConflictRows(flights: map<FlightId, Flight>, id: FlightId, after: Flight, rows: seq<FlightId>) {
    if after.gate == None then rows == []
    else RowsOf(rows,
                FindConflictingFlights(flights, after.gate.value, id, after.scheduledArrival, after.scheduledDeparture))
  }

  /** First the status change, then the gate change, then its conflicts. */
  function EventLog(u: Update, rows: seq<FlightId>): seq<Event>
    requires u.Committed?
  {
    (if StatusMoves(u.before, u.req) then [StatusChanged(u.flight, u.before.status, u.after.status)] else [])
    + if GateMoves(u.before, u.req)
      then [GateChanged(u.flight, u.before.gate, u.after.gate)]
           + (if u.after.gate == None then [] else ConflictLog(u.flight, u.after.gate.value, rows))
      else []
  }

  /** The events of the log are those the update's check step adds in the state machine. */
  lemma LogHoldsPublished(flights: map<FlightId, Flight>, u: Update, rows: seq<FlightId>)
    requires u.Committed? && (GateMoves(u.before, u.req) ==> ConflictRows(flights, u.flight, u.after, rows))
    ensures forall e :: e in EventLog(u, rows) <==> e in Published(flights, u)
  {
    if GateMoves(u.before, u.req) && u.after.gate.Some? {
      LogHoldsConflicts(flights, u.flight, u.after, rows);
    }
  }

  lemma LogHoldsConflicts(flights: map<FlightId, Flight>, id: FlightId, after: Flight, rows: seq<FlightId>)
    requires after.gate.Some? && ConflictRows(flights, id, after, rows)
    ensures forall e :: e in ConflictLog(id, after.gate.value, rows) <==> e in ConflictEvents(flights, id, after)
  {
    var log := ConflictLog(id, after.gate.value, rows);
    forall e | e in ConflictEvents(flights, id, after) ensures e in log {
      var i :| 0 <= i < |rows| && rows[i] == e.other;
      assert log[i] == e;
    }
  }

  // ---------- What an update publishes, by the rows before and after it ----------

  /** The text a status is stored and sent as. */
  function StatusText(status: Status): string {
    match status
    case Scheduled => "scheduled"
    case Arrived => "arrived"
    case Boarding => "boarding"
    case Departed => "departed"
    case Cancelled => "cancelled"
    case Diverted => "diverted"
  }

  /** Exactly the six texts are valid, and each is read as the status it is the text of. */
  lemma ParseStatusIsExact(text: string, status: Status)
    ensures ParseStatus(text) == Some(status) <==> text == StatusText(status)
  {
  }

  lemma KnownStatus(body: Body)
    ensures StatusIsValid(body) <==> (body.status.Some? ==> exists status :: StatusText(status) == body.status.value)
  {
    if body.status.Some? {
      var text := body.status.value;
      forall status ensures ParseStatus(text) == Some(status) <==> text == StatusText(status) {
        ParseStatusIsExact(text, status);
      }
    }
  }

  /**
    The other flight stands active on the gate for a time that overlaps the flight's schedule; a window without a
    departure is three hours long.
  */
  ghost predicate StandsInTheWay(flights: map<FlightId, Flight>, id: FlightId, flight: Flight, other: FlightId,
                                 gate: GateId)
  {
    && other in flights && other != id
    && flights[other].gate == Some(gate)
    && flights[other].status in {Scheduled, Arrived, Boarding}
    && flight.scheduledArrival.Some?
    && var (f, arrival, hours) := (flights[other], flight.scheduledArrival.value, 10800);
       && (f.scheduledArrival.Some? || f.actualArrival.Some?)
       && var start := if f.scheduledArrival.Some? then f.scheduledArrival.value else f.actualArrival.value;
          && start < (if flight.scheduledDeparture.Some? then flight.scheduledDeparture.value else arrival + hours)
          && arrival < (if f.scheduledDeparture.Some? then f.scheduledDeparture.value else start + hours)
  }

  /** Status changes come before gate changes, and these before conflicts. */
  function Rank(e: Event): int {
    match e
    case StatusChanged(_, _, _) => 0
    case GateChanged(_, _, _) => 1
    case GateConflict(_, _, _) => 2
  }

  /**
    The events of an update that has turned one row into the other: one for the status if it differs, one for the gate
    if it differs, and one for every flight in the way on a new gate, each once and in this order.
  */
  ghost predicate Announces(events: seq<Event>, id: FlightId, before: Flight, after: Flight,
                            flights: map<FlightId, Flight>)
  {
    && (forall f, x, y :: StatusChanged(f, x, y) in events <==>
          f == id && x == before.status && y == after.status && x != y)
    && (forall f, x, y :: GateChanged(f, x, y) in events <==> f == id && x == before.gate && y == after.gate && x != y)
    && (forall f, other, g: GateId :: GateConflict(f, other, g) in events <==>
          && f == id && after.gate == Some(g) && before.gate != Some(g)
          && StandsInTheWay(flights, id, after, other, g))
    && (forall i, j :: 0 <= i < j < |events| ==> events[i] != events[j] && Rank(events[i]) <= Rank(events[j]))
  }

  lemma QueryMeaning(flights: map<FlightId, Flight>, id: FlightId, flight: Flight, other: FlightId, gate: GateId)
    ensures other in FindConflictingFlights(flights, gate, id, flight.scheduledArrival, flight.scheduledDeparture) <==>
            StandsInTheWay(flights, id, flight, other, gate)
  {
  }

  lemma ConflictLogMeaning(flights: map<FlightId, Flight>, id: FlightId, after: Flight, rows: seq<FlightId>)
    requires after.gate.Some? && ConflictRows(flights, id, after, rows)
    ensures var log := ConflictLog(id, after.gate.value, rows);
            && (forall f, other, g: GateId :: GateConflict(f, other, g) in log <==>
                  f == id && after.gate == Some(g) && StandsInTheWay(flights, id, after, other, g))
            && (forall i, j :: 0 <= i < j < |log| ==> log[i] != log[j])
            && (forall e :: e in log ==> e.GateConflict?)
  {
    var log, gate := ConflictLog(id, after.gate.value, rows), after.gate.value;
    forall other ensures GateConflict(id, other, gate) in log <==> StandsInTheWay(flights, id, after, other, gate) {
      QueryMeaning(flights, id, after, other, gate);
      if other in rows {
        var i :| 0 <= i < |rows| && rows[i] == other;
        assert log[i] == GateConflict(id, other, gate);
      }
    }
  }

  /** The events about the gate, for an update that moves it. */
  function GateLog(id: FlightId, before: Flight, after: Flight, rows: seq<FlightId>): seq<Event> {
    [GateChanged(id, before.gate, after.gate)]
    + if after.gate == None then [] else ConflictLog(id, after.gate.value, rows)
  }

  lemma GateLogMeaning(flights: map<FlightId, Flight>, id: FlightId, before: Flight, after: Flight,
                       rows: seq<FlightId>)
    requires after.gate.Some? && before.gate != after.gate && ConflictRows(flights, id, after, rows)
    ensures Announces(GateLog(id, before, after, rows), id, before.(status := after.status), after, flights)
    ensures forall e :: e in GateLog(id, before, after, rows) ==> !e.StatusChanged?
  {
    ConflictLogMeaning(flights, id, after, rows);
    var log, conflicts := GateLog(id, before, after, rows), ConflictLog(id, after.gate.value, rows);
    var first := GateChanged(id, before.gate, after.gate);
    assert log == [first] + conflicts;
    forall e ensures e in log <==> e == first || e in conflicts {
    }
    forall i, j | 0 <= i < j < |log| ensures log[i] != log[j] && Rank(log[i]) <= Rank(log[j]) {
      assert log[j] == conflicts[j - 1] && log[j] in conflicts;
      assert i > 0 ==> log[i] == conflicts[i - 1] && log[i] in conflicts;
    }
  }

  /** A status event in front adds just itself. */
  lemma StatusFirst(events: seq<Event>, id: FlightId, before: Flight, after: Flight, flights: map<FlightId, Flight>)
    requires Announces(events, id, before.(status := after.status), after, flights) && before.status != after.status
    requires forall e :: e in events ==> !e.StatusChanged?
    ensures Announces([StatusChanged(id, before.status, after.status)] + events, id, before, after, flights)
  {
    var e := StatusChanged(id, before.status, after.status);
    forall x ensures x in [e] + events <==> x == e || x in events {
    }
  }

  /** The published events are exactly those, whatever the order of the query's rows. */
  lemma UpdateAnnounces(flights: map<FlightId, Flight>, id: FlightId, req: Request, before: Flight,
                        rows: seq<FlightId>)
    requires GateMoves(before, req) ==> ConflictRows(flights, id, Gates.Updated(before, req), rows)
    ensures Announces(EventLog(Committed(id, req, before, Gates.Updated(before, req)), rows), id, before,
                      Gates.Updated(before, req), flights)
  {
    var after := Gates.Updated(before, req);
    var events: seq<Event> := if GateMoves(before, req) then GateLog(id, before, after, rows) else [];
    if GateMoves(before, req) {
      GateLogMeaning(flights, id, before, after, rows);
    } else {
      assert after.gate == before.gate;
    }
    if StatusMoves(before, req) {
      StatusFirst(events, id, before, after, flights);
      assert EventLog(Committed(id, req, before, after), rows) ==
             [StatusChanged(id, before.status, after.status)] + events;
    } else {
      assert after.status == before.status && EventLog(Committed(id, req, before, after), rows) == events;
      assert before.(status := after.status) == before;
    }
  }

  class FlightService {
    var flights: map<FlightId, Flight>
    var log: seq<Event>

    constructor ()
      ensures flights == map[] && log == []
    {
      flights, log := map[], [];
    }

    /** The rows of the conflict query; their order is the database's. */
    method QueryConflicts(gate: GateId, id: FlightId, arrival: Option<Time>, departure: Option<Time>)
      returns (rows: seq<FlightId>)
      ensures RowsOf(rows, FindConflictingFlights(flights, gate, id, arrival, departure))
    {
      var left := FindConflictingFlights(flights, gate, id, arrival, departure);
      ghost var found := left;
      rows := [];
      while left != {}
        invariant left <= found && RowsOf(rows, found - left)
        decreases left
      {
        var other :| other in left;
        left := left - {other};
        rows := rows + [other];
      }
    }

    /** Publishes one conflict event for every row of the query, in their order. */
    method CheckGateConflicts(id: FlightId, flight: Flight) returns (ghost rows: seq<FlightId>)
      modifies this`log
      ensures ConflictRows(flights, id, flight, rows)
      ensures log == old(log) + if flight.gate == None then [] else ConflictLog(id, flight.gate.value, rows)
    {
      rows := [];
      if flight.gate == None {
        return;
      }
      var gate := flight.gate.value;
      var conflicts := QueryConflicts(gate, id, flight.scheduledArrival, flight.scheduledDeparture);
      for i := 0 to |conflicts|
        invariant log == old(log) + ConflictLog(id, gate, conflicts[..i])
      {
        log := log + [GateConflict(id, conflicts[i], gate)];
        assert ConflictLog(id, gate, conflicts[..i + 1]) ==
               ConflictLog(id, gate, conflicts[..i]) + [GateConflict(id, conflicts[i], gate)];
      }
      assert conflicts[..|conflicts|] == conflicts;
      rows := conflicts;
    }

    method PublishStatusEvents(id: FlightId, before: Flight, after: Flight, req: Request)
      returns (ghost rows: seq<FlightId>)
      modifies this`log
      ensures GateMoves(before, req) ==> ConflictRows(flights, id, after, rows)
      ensures log == old(log) + EventLog(Committed(id, req, before, after), rows)
    {
      rows := [];
      if StatusMoves(before, req) {
        log := log + [StatusChanged(id, before.status, after.status)];
      }
      if GateMoves(before, req) {
        log := log + [GateChanged(id, before.gate, after.gate)];
        rows := CheckGateConflicts(id, after);
      }
    }

    /** Reads the flight, writes it in one statement, then publishes; the check runs against the committed table. */
    method UpdateFlight(id: FlightId, body: Body) returns (r: Result, ghost rows: seq<FlightId>)
      modifies this`flights, this`log
      ensures r == NothingRequested <==> body == Body(None, None, None, None)
      ensures r == InvalidStatus <==> body.status.Some? && forall status :: StatusText(status) != body.status.value
      ensures r == NoSuchFlight <==> r != NothingRequested && r != InvalidStatus && id !in old(flights)
      ensures !r.Updated? ==> flights == old(flights) && log == old(log)
      ensures r.Updated? ==>
                var req := RequestOf(body);
                && !NothingToUpdate(req)
                && r.flight == Gates.Updated(old(flights)[id], req)
                && flights == old(flights)[id := r.flight]
                && (GateMoves(old(flights)[id], req) ==> ConflictRows(flights, id, r.flight, rows))
                && log == old(log) + EventLog(Committed(id, req, old(flights)[id], r.flight), rows)
      ensures r.Updated? ==>
                var before := old(flights)[id];
                && r.flight == before.(status := r.flight.status,
                                       actualArrival := if body.actualArrival.Some? then body.actualArrival
                                                        else before.actualArrival,
                                       actualDeparture := if body.actualDeparture.Some? then body.actualDeparture
                                                          else before.actualDeparture,
                                       gate := if body.gate.Some? then body.gate else before.gate)
                && (body.status == None ==> r.flight.status == before.status)
                && (body.status.Some? ==> StatusText(r.flight.status) == body.status.value)
                && Announces(log[|old(log)|..], id, before, r.flight, flights)
    {
      rows := [];
      if IsEmpty(body) {
        return NothingRequested, [];
      }
      KnownStatus(body);
      if body.status.Some? && ParseStatus(body.status.value) == None {
        return InvalidStatus, [];
      }
      var req := RequestOf(body);
      if id !in flights {
        return NoSuchFlight, [];
      }
      var existing := flights[id];
      var flight := existing;
      if req.status.Some? {
        flight := flight.(status := req.status.value);
      }
      if req.actualArrival.Some? {
        flight := flight.(actualArrival := req.actualArrival);
      }
      if req.actualDeparture.Some? {
        flight := flight.(actualDeparture := req.actualDeparture);
      }
      if req.gate.Some? {
        flight := flight.(gate := req.gate);
      }
      flights := flights[id := flight];
      rows := PublishStatusEvents(id, existing, flight, req);
      UpdateAnnounces(flights, id, req, existing, rows);
      if body.status.Some? {
        ParseStatusIsExact(body.status.value, flight.status);
      }
      r := Updated(flight);
    }
  }
}
