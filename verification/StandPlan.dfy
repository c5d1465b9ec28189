/**
  The stand-planning board: which displayed flights share a gate at overlapping times, and how that relates to the
  flight service's check.
*/
module StandPlan {
  import opened Wrappers
  import opened Gates

  /** A row of the occupancy query. */
  datatype Occupancy = Occupancy(gate: GateId, flight: FlightId, start: Time, end: Option<Time>)

  function End(o: Occupancy): Time {
    if o.end.Some? then o.end.value else o.start + THREE_HOURS
  }

  predicate Overlapping(a: Occupancy, b: Occupancy) {
    a.start < End(b) && b.start < End(a)
  }

  /** The row takes its gate at this moment; without an end it does so for three hours. */
  predicate Occupies(o: Occupancy, t: Time) {
    o.start <= t && t < if o.end.Some? then o.end.value else o.start + 10800
  }

  /** Two rows that occupy their gates at all overlap exactly when there is a moment at which both do. */
  lemma OverlapIsASharedMoment(a: Occupancy, b: Occupancy)
    requires Occupies(a, a.start) && Occupies(b, b.start)
    ensures Overlapping(a, b) <==> exists t :: Occupies(a, t) && Occupies(b, t)
  {
    if Overlapping(a, b) {
      var t := if a.start < b.start then b.start else a.start;
      assert Occupies(a, t) && Occupies(b, t);
    }
  }

  /** The flights with another row on their gate at an overlapping time. */
  ghost predicate InConflict(rows: seq<Occupancy>, id: FlightId) {
    exists i, j ::
      0 <= i < |rows| && 0 <= j < |rows| && i != j && rows[i].flight == id && rows[i].gate == rows[j].gate &&
      Overlapping(rows[i], rows[j])
  }

  // ---------- The board's computation ----------

  function OnGate(rows: seq<Occupancy>, gate: GateId): seq<Occupancy> {
    if rows == [] then []
    else OnGate(rows[..|rows| - 1], gate) + (if rows[|rows| - 1].gate == gate then [rows[|rows| - 1]] else [])
  }

  /** Two positions on a gate's list are two positions of the query result, and the other way round. */
  ghost predicate PairIn(rows: seq<Occupancy>, a: Occupancy, b: Occupancy) {
    exists i, j :: 0 <= i < j < |rows| && rows[i] == a && rows[j] == b
  }

  lemma {:induction false} OnGateHas(rows: seq<Occupancy>, gate: GateId, a: Occupancy)
    ensures a in OnGate(rows, gate) <==> a in rows && a.gate == gate
  {
    if rows != [] {
      OnGateHas(rows[..|rows| - 1], gate, a);
      assert rows == rows[..|rows| - 1] + [rows[|rows| - 1]];
    }
  }

  lemma PairAtEnd(rows: seq<Occupancy>, last: Occupancy, a: Occupancy, b: Occupancy)
    ensures PairIn(rows + [last], a, b) <==> PairIn(rows, a, b) || (a in rows && b == last)
  {
    var longer := rows + [last];
    if PairIn(rows, a, b) {
      var i, j :| 0 <= i < j < |rows| && rows[i] == a && rows[j] == b;
      assert longer[i] == a && longer[j] == b;
    }
    if a in rows && b == last {
      var i :| 0 <= i < |rows| && rows[i] == a;
      assert longer[i] == a && longer[|rows|] == b;
    }
  }

  lemma {:induction false} OnGatePairs(rows: seq<Occupancy>, gate: GateId, a: Occupancy, b: Occupancy)
    ensures PairIn(OnGate(rows, gate), a, b) <==> PairIn(rows, a, b) && a.gate == gate && b.gate == gate
  {
    if rows != [] {
      var front, last := rows[..|rows| - 1], rows[|rows| - 1];
      OnGatePairs(front, gate, a, b);
      OnGateHas(front, gate, a);
      PairAtEnd(front, last, a, b);
      assert rows == front + [last];
      if last.gate == gate {
        PairAtEnd(OnGate(front, gate), last, a, b);
        assert OnGate(rows, gate) == OnGate(front, gate) + [last];
      } else {
        assert OnGate(rows, gate) == OnGate(front, gate);
      }
    }
  }

  /** The ids some pair (i, j) with j < bound in row i, or any pair of an earlier row, contributes. */
  ghost predicate FoundBefore(flights: seq<Occupancy>, n: nat, bound: nat, id: FlightId) {
    exists i, j :: 0 <= i < j < |flights| && (i < n || (i == n && j < bound)) && Overlapping(flights[i], flights[j])
                   && (flights[i].flight == id || flights[j].flight == id)
  }

  lemma OneMorePair(flights: seq<Occupancy>, i: nat, j: nat)
    requires i < j < |flights|
    ensures forall id :: FoundBefore(flights, i, j + 1, id) <==>
              || FoundBefore(flights, i, j, id)
              || (Overlapping(flights[i], flights[j]) && (flights[i].flight == id || flights[j].flight == id))
  {
    forall id | FoundBefore(flights, i, j + 1, id) && !FoundBefore(flights, i, j, id)
      ensures Overlapping(flights[i], flights[j]) && (flights[i].flight == id || flights[j].flight == id)
    {
      var p, q :| 0 <= p < q < |flights| && (p < i || (p == i && q < j + 1)) && Overlapping(flights[p], flights[q])
                  && (flights[p].flight == id || flights[q].flight == id);
      assert p == i && q == j;
    }
  }

  /** The pairwise loop over one gate's flights. */
  method PairwiseConflicts(flights: seq<Occupancy>) returns (ids: set<FlightId>)
    ensures forall id :: id in ids <==>
              exists i, j ::
                0 <= i < j < |flights| && Overlapping(flights[i], flights[j]) &&
                (flights[i].flight == id || flights[j].flight == id)
  {
    ids := {};
    for i := 0 to |flights|
      invariant forall id :: id in ids <==> FoundBefore(flights, i, 0, id)
    {
      for j := i + 1 to |flights|
        invariant forall id :: id in ids <==> FoundBefore(flights, i, j, id)
      {
        var a, b := flights[i], flights[j];
        OneMorePair(flights, i, j);
        if Overlapping(a, b) {
          ids := ids + {a.flight} + {b.flight};
        }
      }
      assert forall id :: FoundBefore(flights, i, |flights|, id) <==> FoundBefore(flights, i + 1, 0, id);
    }
    assert forall id :: FoundBefore(flights, |flights|, 0, id) <==>
      exists i, j ::
        0 <= i < j < |flights| && Overlapping(flights[i], flights[j]) &&
        (flights[i].flight == id || flights[j].flight == id);
  }

  /** The rows of each gate that occurs, in order. */
  method GroupByGate(occupancy: seq<Occupancy>) returns (gateMap: map<GateId, seq<Occupancy>>)
    ensures forall g :: g in gateMap <==> exists k :: 0 <= k < |occupancy| && occupancy[k].gate == g
    ensures forall g :: OnGate(occupancy, g) == if g in gateMap then gateMap[g] else []
  {
    gateMap := map[];
    for n := 0 to |occupancy|
      invariant forall g :: g in gateMap <==> exists k :: 0 <= k < n && occupancy[k].gate == g
      invariant forall g :: g in gateMap ==> gateMap[g] == OnGate(occupancy[..n], g)
      invariant forall g :: g !in gateMap ==> OnGate(occupancy[..n], g) == []
    {
      var occ := occupancy[n];
      if occ.gate !in gateMap {
        gateMap := gateMap[occ.gate := []];
      }
      gateMap := gateMap[occ.gate := gateMap[occ.gate] + [occ]];
      assert occupancy[..n + 1][..n] == occupancy[..n];
    }
    assert occupancy[..|occupancy|] == occupancy;
  }

  /** Grouping by gate and the pairwise loops find exactly the flights in conflict. */
  method ConflictFlightIds(occupancy: seq<Occupancy>) returns (ids: set<FlightId>)
    ensures forall id :: id in ids <==> InConflict(occupancy, id)
  {
    var gateMap := GroupByGate(occupancy);
    ids := {};
    var left := gateMap.Keys;
    while left != {}
      invariant left <= gateMap.Keys
      invariant forall id :: id in ids <==> exists g :: g in gateMap && g !in left && OnGateConflict(occupancy, g, id)
      decreases left
    {
      var g :| g in left;
      var onGate := PairwiseConflicts(gateMap[g]);
      left := left - {g};
      ids := ids + onGate;
      assert forall id :: id in onGate <==> OnGateConflict(occupancy, g, id);
    }
    forall id ensures id in ids <==> InConflict(occupancy, id) {
      GateConflictsAreConflicts(occupancy, id);
      assert forall g :: OnGateConflict(occupancy, g, id) ==> g in gateMap;
    }
  }

  ghost predicate OnGateConflict(rows: seq<Occupancy>, g: GateId, id: FlightId) {
    var flights := OnGate(rows, g);
    exists i, j ::
      0 <= i < j < |flights| && Overlapping(flights[i], flights[j]) &&
      (flights[i].flight == id || flights[j].flight == id)
  }

  lemma GateConflictsAreConflicts(rows: seq<Occupancy>, id: FlightId)
    ensures InConflict(rows, id) <==> exists g :: OnGateConflict(rows, g, id)
  {
    if InConflict(rows, id) {
      var i, j :| 0 <= i < |rows| && 0 <= j < |rows| && i != j && rows[i].flight == id &&
                  rows[i].gate == rows[j].gate && Overlapping(rows[i], rows[j]);
      var a, b := rows[if i < j then i else j], rows[if i < j then j else i];
      assert PairIn(rows, a, b);
      OnGatePairs(rows, a.gate, a, b);
      assert OnGateConflict(rows, a.gate, id);
    }
    if g :| OnGateConflict(rows, g, id) {
      var flights := OnGate(rows, g);
      var i, j :| 0 <= i < j < |flights| && Overlapping(flights[i], flights[j]) &&
                  (flights[i].flight == id || flights[j].flight == id);
      assert PairIn(flights, flights[i], flights[j]);
      OnGatePairs(rows, g, flights[i], flights[j]);
      var k, l :| 0 <= k < l < |rows| && rows[k] == flights[i] && rows[l] == flights[j];
      assert rows[k].gate == rows[l].gate;
    }
  }

  // ---------- Agreement with the flight service ----------

  function Start(f: Flight): Option<Time> {
    Coalesce(f.actualArrival, f.scheduledArrival)
  }

  /** The WHERE clause of the occupancy query. */
  predicate Displayed(f: Flight, from: Time, to: Time) {
    && f.gate.Some? && f.status != Cancelled && f.status != Diverted
    && Less(Start(f), to)
    && Greater(Coalesce(Coalesce(f.actualDeparture, f.scheduledDeparture), PlusThreeHours(Start(f))), from)
  }

  function RowOf(id: FlightId, f: Flight): Occupancy
    requires f.gate.Some? && Start(f).Some?
  {
    Occupancy(f.gate.value, id, Start(f).value, Coalesce(f.actualDeparture, f.scheduledDeparture))
  }

  /**
    The query shows flights on a gate that are neither cancelled nor diverted and touch the period asked for: from the
    actual or else scheduled arrival, to the actual or else scheduled departure or else three hours later.
  */
  lemma DisplayMeaning(id: FlightId, f: Flight, from: Time, to: Time)
    ensures Displayed(f, from, to) <==>
            && f.gate.Some? && f.status in {Scheduled, Arrived, Boarding, Departed}
            && (f.actualArrival.Some? || f.scheduledArrival.Some?)
            && var row := RowOf(id, f);
               row.start < to && from < if row.end.Some? then row.end.value else row.start + 10800
    ensures f.gate.Some? && (f.actualArrival.Some? || f.scheduledArrival.Some?) ==>
              RowOf(id, f) == Occupancy(
                f.gate.value, id,
                if f.actualArrival.Some? then f.actualArrival.value else f.scheduledArrival.value,
                if f.actualDeparture.Some? then f.actualDeparture else f.scheduledDeparture)
  {
  }

  /** The rows are the displayed flights, once each, in any order. */
  ghost predicate Lists(rows: seq<Occupancy>, flights: map<FlightId, Flight>, from: Time, to: Time) {
    && (forall i :: 0 <= i < |rows| ==>
          rows[i].flight in flights && Displayed(flights[rows[i].flight], from, to) &&
          rows[i] == RowOf(rows[i].flight, flights[rows[i].flight]))
    && (forall i, j :: 0 <= i < j < |rows| ==> rows[i].flight != rows[j].flight)
    && (forall id :: id in flights && Displayed(flights[id], from, to) ==>
        exists i :: 0 <= i < |rows| && rows[i].flight == id)
  }

  /** Still to come: active, with a scheduled arrival and nothing actual yet. */
  predicate Planned(f: Flight) {
    Active(f) && f.scheduledArrival.Some? && f.actualArrival == None && f.actualDeparture == None
  }

  /** Two rows of planned flights overlap on one gate exactly when the query for one returns the other. */
  lemma RowsAgreeWithQuery(flights: map<FlightId, Flight>, a: FlightId, b: FlightId)
    requires a in flights && b in flights && a != b && Planned(flights[a]) && Planned(flights[b])
    requires flights[a].gate.Some? && flights[b].gate.Some?
    ensures var x, y := RowOf(a, flights[a]), RowOf(b, flights[b]);
            x.gate == y.gate && Overlapping(x, y) <==> b in ConflictsOf(flights, a)
  {
  }

  /** On displayed planned flights the board's red set and the service's query are one relation. */
  lemma BoardAgreesWithService(rows: seq<Occupancy>, flights: map<FlightId, Flight>, from: Time, to: Time, a: FlightId)
    requires Lists(rows, flights, from, to)
    requires forall id :: id in flights && Displayed(flights[id], from, to) ==> Planned(flights[id])
    requires a in flights && Displayed(flights[a], from, to)
    ensures InConflict(rows, a) <==>
            exists b :: b in flights && Displayed(flights[b], from, to) && b in ConflictsOf(flights, a)
  {
  }
}
