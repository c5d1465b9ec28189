/**
  What one run of the equipment loop achieves: the best possible allocation, in registration order, and nothing more
  when repeated.
*/
module EquipmentOptimal {
  import opened Wrappers
  import opened Equipment
  import opened Counting

  /** The units handed out by a run. */
  function Taken(outs: seq<Outcome>): set<UnitId> {
    set k | 0 <= k < |outs| && outs[k].Equipped? :: outs[k].unit
  }

  /** Some task of the run got this row. */
  ghost predicate Justified(row: EquipmentRow, ta: TurnaroundId, tasks: seq<Task>, outs: seq<Outcome>)
    requires |outs| <= |tasks|
  {
    exists k :: 0 <= k < |outs| && outs[k].Equipped? && row == EquipmentRow(outs[k].unit, ta, tasks[k].id, None)
  }

  /** A run appends rows for its assignments and turns exactly the taken units from available to in use. */
  lemma {:induction false} RunEffect(db: Db, ta: TurnaroundId, tasks: seq<Task>, outs: seq<Outcome>)
    requires LegalRun(db, ta, tasks, outs)
    ensures db.rows <= RunDb(db, ta, tasks, outs).rows
    ensures forall i :: |db.rows| <= i < |RunDb(db, ta, tasks, outs).rows| ==>
            Justified(RunDb(db, ta, tasks, outs).rows[i], ta, tasks, outs)
    ensures Taken(outs) <= db.units.Keys
    ensures RunDb(db, ta, tasks, outs).units ==
            map u | u in db.units :: if u in Taken(outs) then db.units[u].(status := InUse) else db.units[u]
    ensures forall u :: u in Taken(outs) ==> db.units[u].status == Available
    decreases |outs|
  {
    if outs != [] {
      var n := |outs| - 1;
      var shorter := outs[..n];
      RunEffect(db, ta, tasks, shorter);
      var before, after := RunDb(db, ta, tasks, shorter), RunDb(db, ta, tasks, outs);
      assert Taken(outs) == Taken(shorter) + (if outs[n].Equipped? then {outs[n].unit} else {});
      forall i | |db.rows| <= i < |after.rows| ensures Justified(after.rows[i], ta, tasks, outs) {
        if i < |before.rows| {
          assert Justified(before.rows[i], ta, tasks, shorter);
          var k :| 0 <= k < n && shorter[k].Equipped? &&
                   before.rows[i] == EquipmentRow(shorter[k].unit, ta, tasks[k].id, None);
          assert outs[k] == shorter[k];
        } else {
          assert outs[n].Equipped?;
        }
      }
    }
  }

  lemma {:induction false} RunPrefix(db: Db, ta: TurnaroundId, tasks: seq<Task>, outs: seq<Outcome>, k: nat)
    requires LegalRun(db, ta, tasks, outs) && k <= |outs|
    ensures RunDb(db, ta, tasks, outs[..k]).rows <= RunDb(db, ta, tasks, outs).rows
    decreases |outs|
  {
    if k == |outs| {
      assert outs[..k] == outs;
    } else {
      var n := |outs| - 1;
      assert outs[..n][..k] == outs[..k];
      RunPrefix(db, ta, tasks, outs[..n], k);
    }
  }

  /**
    An assignment leaves its open row behind, and its unit was the first of its kind by registration among those not
    taken before.
  */
  lemma EquippedMeaning(db: Db, ta: TurnaroundId, tasks: seq<Task>, outs: seq<Outcome>, k: nat)
    requires LegalRun(db, ta, tasks, outs) && k < |outs| && outs[k].Equipped?
    ensures var u := outs[k].unit;
            && RequiredKind(tasks[k].name).Some?
            && Usable(db.units, RequiredKind(tasks[k].name).value, u)
            && u !in Taken(outs[..k])
            && (forall v :: Usable(db.units, RequiredKind(tasks[k].name).value, v) && v !in Taken(outs[..k]) ==>
                  db.units[u].registration <= db.units[v].registration)
    ensures !HasOpen(db.rows, ta, tasks[k].id)
    ensures HasOpen(RunDb(db, ta, tasks, outs).rows, ta, tasks[k].id)
  {
    DecisionIsLegal(db, ta, tasks, outs, k);
    RunEffect(db, ta, tasks, outs[..k]);
    RunPrefix(db, ta, tasks, outs, k + 1);
    var before := RunDb(db, ta, tasks, outs[..k]);
    var u, kind := outs[k].unit, RequiredKind(tasks[k].name).value;
    forall v | Usable(db.units, kind, v) && v !in Taken(outs[..k])
      ensures db.units[u].registration <= db.units[v].registration
    {
      assert Usable(before.units, kind, v);
    }
    assert outs[..k + 1][..k] == outs[..k];
    var now := RunDb(db, ta, tasks, outs[..k + 1]);
    assert OpenFor(now.rows[|before.rows|], ta, tasks[k].id);
    assert RunDb(db, ta, tasks, outs).rows[|before.rows|] == now.rows[|before.rows|];
    assert forall i :: 0 <= i < |db.rows| ==> before.rows[i] == db.rows[i];
  }

  predicate DistinctIds(tasks: seq<Task>) {
    forall j, k :: 0 <= j < k < |tasks| ==> tasks[j].id != tasks[k].id
  }

  // ---------- Registration order ----------

  predicate NoLaterThan(units: map<UnitId, Unit>, u: UnitId, v: UnitId) {
    u in units && v in units && units[u].registration <= units[v].registration
  }

  /** Units of a kind are handed out in registration order, and whatever stays available comes after them. */
  lemma RegistrationOrder(db: Db, ta: TurnaroundId, tasks: seq<Task>, outs: seq<Outcome>, j: nat)
    requires LegalRun(db, ta, tasks, outs) && j < |outs| && outs[j].Equipped?
    ensures forall k :: j < k < |outs| && outs[k].Equipped? ==> outs[k].unit != outs[j].unit
    ensures forall k ::
              j < k < |outs| && outs[k].Equipped? && RequiredKind(tasks[k].name) == RequiredKind(tasks[j].name) ==>
              NoLaterThan(db.units, outs[j].unit, outs[k].unit)
    ensures RequiredKind(tasks[j].name).Some?
    ensures forall v :: Usable(RunDb(db, ta, tasks, outs).units, RequiredKind(tasks[j].name).value, v) ==>
              NoLaterThan(db.units, outs[j].unit, v)
  {
    EquippedMeaning(db, ta, tasks, outs, j);
    RunEffect(db, ta, tasks, outs);
    assert forall i :: 0 <= i < j ==> outs[..j][i] == outs[i];
    assert Taken(outs[..j]) <= Taken(outs);
    forall k | j < k < |outs| && outs[k].Equipped?
      ensures outs[k].unit != outs[j].unit
      ensures RequiredKind(tasks[k].name) == RequiredKind(tasks[j].name) ==>
              NoLaterThan(db.units, outs[j].unit, outs[k].unit)
    {
      EquippedMeaning(db, ta, tasks, outs, k);
      assert outs[..k][j] == outs[j];
      assert forall i :: 0 <= i < j ==> outs[..k][i] == outs[..j][i];
      assert Taken(outs[..j]) <= Taken(outs[..k]);
    }
  }

  // ---------- Exactly the minimum of supply and demand ----------

  /** Units of the kind that were available before the run. */
  function Supply(db: Db, kind: Kind): set<UnitId> {
    set u | u in db.units && Usable(db.units, kind, u)
  }

  /** Tasks that want this kind and hold no unit. */
  ghost function Demand(db: Db, ta: TurnaroundId, tasks: seq<Task>, kind: Kind): set<nat> {
    set k | 0 <= k < |tasks| && RequiredKind(tasks[k].name) == Some(kind) && !HasOpen(db.rows, ta, tasks[k].id)
  }

  function ServedOf(tasks: seq<Task>, outs: seq<Outcome>, kind: Kind): set<nat>
    requires |outs| <= |tasks|
  {
    set k | 0 <= k < |outs| && outs[k].Equipped? && RequiredKind(tasks[k].name) == Some(kind)
  }

  function Served(outs: seq<Outcome>): set<nat> {
    set k | 0 <= k < |outs| && outs[k].Equipped?
  }

  /** If some task of the kind goes without, every unit of the kind was handed out. */
  lemma ShortageMeansAllTaken(db: Db, ta: TurnaroundId, tasks: seq<Task>, outs: seq<Outcome>, kind: Kind, k: nat)
    requires Valid(db) && LegalRun(db, ta, tasks, outs) && |outs| == |tasks| && DistinctIds(tasks)
    requires k in Demand(db, ta, tasks, kind) && !outs[k].Equipped?
    ensures Supply(db, kind) <= Taken(outs)
  {
    var before := RunDb(db, ta, tasks, outs[..k]);
    DecisionIsLegal(db, ta, tasks, outs, k);
    RunEffect(db, ta, tasks, outs[..k]);
    RunKeepsValid(db, ta, tasks, outs);
    assert forall i :: 0 <= i < |db.rows| ==> before.rows[i] == db.rows[i];
    assert forall i :: |db.rows| <= i < |before.rows| ==> Justified(before.rows[i], ta, tasks, outs[..k]);
    assert !HasOpen(before.rows, ta, tasks[k].id);
    assert outs[k] == NoUnit;
    forall u | u in Supply(db, kind) ensures u in Taken(outs) {
      assert !Usable(before.units, kind, u);
      assert u in Taken(outs[..k]);
    }
  }

  /** Each assignment of a kind serves a different task of the demand with a different unit of the supply. */
  lemma ServedWithinBoth(db: Db, ta: TurnaroundId, tasks: seq<Task>, outs: seq<Outcome>, kind: Kind)
    requires LegalRun(db, ta, tasks, outs)
    ensures |ServedOf(tasks, outs, kind)| <= |Demand(db, ta, tasks, kind)|
    ensures |ServedOf(tasks, outs, kind)| <= |Supply(db, kind)|
  {
    var served := ServedOf(tasks, outs, kind);
    forall k | k in served ensures k in Demand(db, ta, tasks, kind) && outs[k].unit in Supply(db, kind) {
      EquippedMeaning(db, ta, tasks, outs, k);
    }
    SubsetBound(served, Demand(db, ta, tasks, kind));
    forall j, k | j in served && k in served && j != k ensures outs[j].unit != outs[k].unit {
      RegistrationOrder(db, ta, tasks, outs, if j < k then j else k);
    }
    InjectionBound(served, Supply(db, kind), map k | k in served :: outs[k].unit);
  }

  /** When every unit of the kind was handed out, there are at least as many assignments as units. */
  lemma AllTakenServes(db: Db, ta: TurnaroundId, tasks: seq<Task>, outs: seq<Outcome>, kind: Kind)
    requires LegalRun(db, ta, tasks, outs) && Supply(db, kind) <= Taken(outs)
    ensures |Supply(db, kind)| <= |ServedOf(tasks, outs, kind)|
  {
    var served, supply := ServedOf(tasks, outs, kind), Supply(db, kind);
    forall u | u in supply ensures exists g :: g in served && outs[g].unit == u {
      var g :| 0 <= g < |outs| && outs[g].Equipped? && outs[g].unit == u;
      EquippedMeaning(db, ta, tasks, outs, g);
    }
    InjectionBound(supply, served, map u | u in supply :: (var g :| g in served && outs[g].unit == u; g));
  }

  /** Each kind gets exactly min(units available, tasks of that kind lacking one) assignments. */
  lemma EachKindGetsTheMinimum(db: Db, ta: TurnaroundId, tasks: seq<Task>, outs: seq<Outcome>, kind: Kind)
    requires Valid(db) && LegalRun(db, ta, tasks, outs) && Finished(tasks, outs) && DistinctIds(tasks)
    ensures |ServedOf(tasks, outs, kind)| ==
            if |Supply(db, kind)| <= |Demand(db, ta, tasks, kind)|
            then |Supply(db, kind)|
            else |Demand(db, ta, tasks, kind)|
  {
    RunKeepsValid(db, ta, tasks, outs);
    ServedWithinBoth(db, ta, tasks, outs, kind);
    if k :| k in Demand(db, ta, tasks, kind) && k !in ServedOf(tasks, outs, kind) {
      ShortageMeansAllTaken(db, ta, tasks, outs, kind, k);
      AllTakenServes(db, ta, tasks, outs, kind);
    } else {
      SubsetBound(Demand(db, ta, tasks, kind), ServedOf(tasks, outs, kind));
    }
  }

  // ---------- No policy does better ----------

  /** A competing allocation: available units of the right kind, one each, for tasks that hold none. */
  ghost predicate Feasible(db: Db, ta: TurnaroundId, tasks: seq<Task>, plan: map<nat, UnitId>) {
    && (forall k :: k in plan ==>
          && k < |tasks| && RequiredKind(tasks[k].name).Some? && !HasOpen(db.rows, ta, tasks[k].id)
          && Usable(db.units, RequiredKind(tasks[k].name).value, plan[k]))
    && (forall j, k :: j in plan && k in plan && j != k ==> plan[j] != plan[k])
  }

  function AllKinds(): set<Kind> {
    {Gpu, PushbackTug, BeltLoader, FuelTruck, LavatoryTruck, WaterTruck, CateringTruck, AirStartUnit, DeIcingTruck}
  }

  function OfKind(A: set<nat>, kindOf: map<nat, Kind>, kind: Kind): set<nat>
    requires A <= kindOf.Keys
  {
    set a | a in A && kindOf[a] == kind
  }

  function InKinds(A: set<nat>, kindOf: map<nat, Kind>, kinds: set<Kind>): set<nat>
    requires A <= kindOf.Keys
  {
    set a | a in A && kindOf[a] in kinds
  }

  lemma SplitOffKind(A: set<nat>, kindOf: map<nat, Kind>, kinds: set<Kind>, kind: Kind)
    requires A <= kindOf.Keys && kind in kinds
    ensures |InKinds(A, kindOf, kinds)| == |InKinds(A, kindOf, kinds - {kind})| + |OfKind(A, kindOf, kind)|
  {
    assert InKinds(A, kindOf, kinds) == InKinds(A, kindOf, kinds - {kind}) + OfKind(A, kindOf, kind);
    assert InKinds(A, kindOf, kinds - {kind}) !! OfKind(A, kindOf, kind);
  }

  /** If B has at least as many members of each kind as A, it has at least as many in all. */
  lemma {:induction false} SumOverKinds(A: set<nat>, B: set<nat>, kindA: map<nat, Kind>, kindB: map<nat, Kind>,
                                        kinds: set<Kind>)
    requires A <= kindA.Keys && B <= kindB.Keys
    requires forall kind :: kind in kinds ==> |OfKind(A, kindA, kind)| <= |OfKind(B, kindB, kind)|
    ensures |InKinds(A, kindA, kinds)| <= |InKinds(B, kindB, kinds)|
    decreases kinds
  {
    if kinds == {} {
      assert InKinds(A, kindA, kinds) == {};
    } else {
      var kind :| kind in kinds;
      SumOverKinds(A, B, kindA, kindB, kinds - {kind});
      SplitOffKind(A, kindA, kinds, kind);
      SplitOffKind(B, kindB, kinds, kind);
    }
  }

  lemma EveryKindListed(kind: Kind)
    ensures kind in AllKinds()
  {
    match kind
    case Gpu => case PushbackTug => case BeltLoader => case FuelTruck => case LavatoryTruck =>
    case WaterTruck => case CateringTruck => case AirStartUnit => case DeIcingTruck =>
  }

  lemma EveryKindCounted(A: set<nat>, kindOf: map<nat, Kind>)
    requires A <= kindOf.Keys
    ensures InKinds(A, kindOf, AllKinds()) == A
  {
    forall a | a in A ensures a in InKinds(A, kindOf, AllKinds()) {
      EveryKindListed(kindOf[a]);
    }
  }

  ghost predicate AllMapped(tasks: seq<Task>, A: set<nat>) {
    forall k :: k in A ==> k < |tasks| && RequiredKind(tasks[k].name).Some?
  }

  ghost function KindMap(tasks: seq<Task>, A: set<nat>): map<nat, Kind>
    requires AllMapped(tasks, A)
  {
    map k | k in A :: RequiredKind(tasks[k].name).value
  }

  lemma PlanOfKind(db: Db, ta: TurnaroundId, tasks: seq<Task>, outs: seq<Outcome>, plan: map<nat, UnitId>, kind: Kind)
    requires Valid(db) && LegalRun(db, ta, tasks, outs) && Finished(tasks, outs) && DistinctIds(tasks)
    requires Feasible(db, ta, tasks, plan) && AllMapped(tasks, plan.Keys) && AllMapped(tasks, Served(outs))
    ensures |OfKind(plan.Keys, KindMap(tasks, plan.Keys), kind)| <=
            |OfKind(Served(outs), KindMap(tasks, Served(outs)), kind)|
  {
    var part := OfKind(plan.Keys, KindMap(tasks, plan.Keys), kind);
    EachKindGetsTheMinimum(db, ta, tasks, outs, kind);
    SubsetBound(part, Demand(db, ta, tasks, kind));
    InjectionBound(part, Supply(db, kind), map k | k in part :: plan[k]);
    assert OfKind(Served(outs), KindMap(tasks, Served(outs)), kind) == ServedOf(tasks, outs, kind);
  }

  /** No assignment policy equips more tasks of the event than the loop does. */
  lemma GreedyIsOptimal(db: Db, ta: TurnaroundId, tasks: seq<Task>, outs: seq<Outcome>, plan: map<nat, UnitId>)
    requires Valid(db) && LegalRun(db, ta, tasks, outs) && Finished(tasks, outs) && DistinctIds(tasks)
    requires Feasible(db, ta, tasks, plan)
    ensures |plan| <= |Served(outs)|
  {
    var planned, served := plan.Keys, Served(outs);
    forall k | k in served ensures RequiredKind(tasks[k].name).Some? {
      EquippedMeaning(db, ta, tasks, outs, k);
    }
    var kindP, kindS := KindMap(tasks, planned), KindMap(tasks, served);
    forall kind | kind in AllKinds() ensures |OfKind(planned, kindP, kind)| <= |OfKind(served, kindS, kind)| {
      PlanOfKind(db, ta, tasks, outs, plan, kind);
    }
    SumOverKinds(planned, served, kindP, kindS, AllKinds());
    EveryKindCounted(planned, kindP);
    EveryKindCounted(served, kindS);
    assert |plan| == |planned|;
  }

  // ---------- Idempotence ----------

  lemma SecondBodyEquipsNothing(before: Db, after: Db, ta: TurnaroundId, task: Task, first: Outcome, second: Outcome)
    requires before.rows <= after.rows
    requires forall kind, u :: Usable(after.units, kind, u) ==> Usable(before.units, kind, u)
    requires LegalOutcome(before, ta, task, first) && first != Raised
    requires first.Equipped? ==> HasOpen(after.rows, ta, task.id)
    requires Valid(after) && LegalOutcome(after, ta, task, second)
    ensures second in {NoMapping, AlreadyEquipped, NoUnit}
    ensures second == NoUnit ==> first == NoUnit
  {
  }

  /** What is usable after a run was usable at every moment of it. */
  lemma AvailabilityShrinks(db: Db, ta: TurnaroundId, tasks: seq<Task>, outs: seq<Outcome>, n: nat)
    requires n <= |outs| && LegalRun(db, ta, tasks, outs) && LegalRun(db, ta, tasks, outs[..n])
    ensures forall kind, u :: Usable(RunDb(db, ta, tasks, outs).units, kind, u) ==>
            Usable(RunDb(db, ta, tasks, outs[..n]).units, kind, u)
  {
    RunEffect(db, ta, tasks, outs);
    RunEffect(db, ta, tasks, outs[..n]);
    assert forall i :: 0 <= i < n ==> outs[..n][i] == outs[i];
    assert Taken(outs[..n]) <= Taken(outs);
  }

  lemma SecondDecision(db: Db, ta: TurnaroundId, tasks: seq<Task>, first: seq<Outcome>, n: nat, second: Outcome)
    requires Valid(db) && LegalRun(db, ta, tasks, first) && n < |first|
    requires LegalOutcome(RunDb(db, ta, tasks, first), ta, tasks[n], second)
    ensures second in {NoMapping, AlreadyEquipped, NoUnit}
    ensures second == NoUnit ==> first[n] == NoUnit
  {
    RunKeepsValid(db, ta, tasks, first);
    RunPrefix(db, ta, tasks, first, n);
    DecisionIsLegal(db, ta, tasks, first, n);
    AvailabilityShrinks(db, ta, tasks, first, n);
    if first[n].Equipped? {
      EquippedMeaning(db, ta, tasks, first, n);
    }
    SecondBodyEquipsNothing(RunDb(db, ta, tasks, first[..n]), RunDb(db, ta, tasks, first), ta, tasks[n], first[n],
                            second);
  }

  /** Running the loop again over the same event equips nothing more. */
  lemma {:induction false} SecondRunEquipsNothing(db: Db, ta: TurnaroundId, tasks: seq<Task>, first: seq<Outcome>,
                                                  second: seq<Outcome>)
    requires Valid(db) && LegalRun(db, ta, tasks, first) && |first| == |tasks|
    requires LegalRun(RunDb(db, ta, tasks, first), ta, tasks, second)
    ensures RunDb(RunDb(db, ta, tasks, first), ta, tasks, second) == RunDb(db, ta, tasks, first)
    ensures forall k :: 0 <= k < |second| ==> second[k] in {NoMapping, AlreadyEquipped, NoUnit}
    ensures forall k :: 0 <= k < |second| && second[k] == NoUnit ==> first[k] == NoUnit
    decreases |second|
  {
    if second != [] {
      var n := |second| - 1;
      SecondRunEquipsNothing(db, ta, tasks, first, second[..n]);
      SecondDecision(db, ta, tasks, first, n, second[n]);
    }
  }
}
