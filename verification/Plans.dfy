/** The tasks of a plan one by one, and how they fit what the crew service looks for. */
module Plans {
  import opened Wrappers
  import opened Rounding
  import opened TaskTemplates
  import opened Durations
  import CA = CrewAssignment
  import EQ = Equipment
  import Turnaround

  // ---------- Every task of a plan ----------

  /** Fluid for frost holds shortest; an unknown temperature counts as zero degrees. */
  lemma HoldoverMeaning(t: real)
    ensures HoldoverMinutes(None) == HoldoverMinutes(Some(0.0)) == 20
    ensures HoldoverMinutes(Some(t)) == 45 <==> t < -10.0
    ensures HoldoverMinutes(Some(t)) == 20 <==> t >= -3.0
    ensures HoldoverMinutes(Some(t)) == 30 <==> -10.0 <= t < -3.0
  {
  }

  /** A table's duration after both roundings. */
  function Minutes(base: int, first: real, second: real): int {
    Scaled(Scaled(base, first), second)
  }

  function Scaled(minutes: int, factor: real): int {
    MathRound(minutes as real * factor)
  }

  lemma IcedTasks(tasks: seq<Template>, ice: Template)
    requires tasks != []
    ensures var iced, n := WithDeIcing(tasks, ice, |tasks| - 1), |tasks|;
            && |iced| == n + 1 && iced[n - 1] == ice && iced[n] == tasks[n - 1].(order := n + 1)
            && forall i :: 0 <= i < n - 1 ==> iced[i] == tasks[i]
  {
  }

  /** The i-th task of the list within the plan made from it. */
  ghost predicate Placed(t: Template, plan: seq<Template>, n: nat, i: nat)
    requires i < n <= |plan|
  {
    if i < n - 1 then plan[i] == t else plan[|plan| - 1] == t.(order := |plan|)
  }

  lemma PlannedFromList(list: seq<Template>, deIcing: bool, temperature: Option<real>, factor: real, i: nat)
    requires Numbered(list) && i < |list|
    ensures var plan, n := Turnaround.Planned(list, deIcing, temperature, factor), |list|;
            && |plan| == (if deIcing then n + 1 else n)
            && Placed(ScaledTask(list[i], factor), plan, n, i)
            && (deIcing ==> plan[n - 1] == Template("de_icing", HoldoverMinutes(temperature), Some("fueling"),
                                                    Some("de_icing_truck"), n))
  {
    var scaled := ScaleTasks(list, factor);
    if deIcing {
      IcedTasks(scaled, DeIcingTask(|list| - 1, temperature));
    }
  }

  /** The plan made from a table by applying one factor and then another. */
  ghost predicate MadeFrom(plan: seq<Template>, base: seq<Template>, first: real, deIcing: bool,
                           temperature: Option<real>, second: real)
  {
    var n := |base|;
    && |plan| == (if deIcing then n + 1 else n)
    && (forall i :: 0 <= i < n ==>
          var t := base[i];
          Placed(Template(t.name, Minutes(t.minutes, first, second), t.certification, t.equipment, t.order), plan, n,
                 i))
    && (deIcing ==> n > 0 && plan[n - 1] ==
                    Template("de_icing", HoldoverMinutes(temperature), Some("fueling"), Some("de_icing_truck"), n))
  }

  lemma ScaledTwice(t: Template, first: real, second: real)
    ensures ScaledTask(ScaledTask(t, first), second) ==
            Template(t.name, Minutes(t.minutes, first, second), t.certification, t.equipment, t.order)
  {
    var once := ScaledTask(t, first);
    var twice := ScaledTask(once, second);
    assert once.minutes == Scaled(t.minutes, first) && twice.minutes == Scaled(once.minutes, second);
  }

  lemma PlannedFromTable(base: seq<Template>, first: real, deIcing: bool, temperature: Option<real>, second: real)
    requires base != [] && Numbered(base)
    ensures MadeFrom(Turnaround.Planned(ScaleTasks(base, first), deIcing, temperature, second), base, first, deIcing,
                     temperature, second)
  {
    var list := ScaleTasks(base, first);
    var plan := Turnaround.Planned(list, deIcing, temperature, second);
    forall i: nat | i < |base|
      ensures var t := base[i];
              && |plan| >= |base|
              && Placed(Template(t.name, Minutes(t.minutes, first, second), t.certification, t.equipment, t.order),
                        plan, |base|, i)
    {
      PlannedFromList(list, deIcing, temperature, second, i);
      assert list[i] == ScaledTask(base[i], first);
      ScaledTwice(base[i], first, second);
    }
    PlannedFromList(list, deIcing, temperature, second, 0);
  }

  lemma TablesAreNumbered(aircraftType: string)
    ensures BaseTemplate(aircraftType) != [] && Numbered(BaseTemplate(aircraftType))
  {
    WideBodyIsWellFormed();
    NarrowBodyIsWellFormed();
  }

  /**
    A plan is its type's table with both factors applied, task by task and otherwise unchanged; de-icing, if needed, is
    second to last, and only the number of the last task makes room for it.
  */
  lemma PlannedTasks(aircraftType: string, deIcing: bool, temperature: Option<real>, factor: real)
    requires !Inherited(aircraftType)
    ensures Turnaround.Plan(aircraftType, deIcing, temperature, factor).Some?
    ensures MadeFrom(Turnaround.Plan(aircraftType, deIcing, temperature, factor).value, BaseTemplate(aircraftType),
                     AircraftFactor(aircraftType), deIcing, temperature, factor)
  {
    LookupIsScaledTable(aircraftType);
    TablesAreNumbered(aircraftType);
    Turnaround.PlanIsNumbered(aircraftType, deIcing, temperature, factor);
    PlannedFromTable(BaseTemplate(aircraftType), AircraftFactor(aircraftType), deIcing, temperature, factor);
  }

  // ---------- What the tasks require ----------

  /** The equipment type as both services write it. */
  function TypeName(kind: EQ.Kind): string {
    match kind
    case Gpu => "gpu"
    case PushbackTug => "pushback_tug"
    case BeltLoader => "belt_loader"
    case FuelTruck => "fuel_truck"
    case LavatoryTruck => "lavatory_truck"
    case WaterTruck => "water_truck"
    case CateringTruck => "catering_truck"
    case AirStartUnit => "air_start_unit"
    case DeIcingTruck => "de_icing_truck"
  }

  /** The type the crew service's map allocates for a task is the one the template asks for. */
  predicate Allocates(t: Template) {
    t.equipment == match EQ.RequiredKind(t.name) case None => None case Some(kind) => Some(TypeName(kind))
  }

  /** A crew member is looked for, exactly unless the task is deboarding. */
  predicate Staffs(t: Template) {
    CA.NeedsCrew(CA.TaskInfo(0, t.name, t.order, t.certification)) <==> t.name != "deboarding"
  }

  lemma WideBodyAgrees(i: nat)
    requires i < |WideBody()|
    ensures Allocates(WideBody()[i]) && Staffs(WideBody()[i]) && WideBody()[i].name != "de_icing"
  {
    var names := ["deboarding", "fueling", "catering", "cabin_cleaning", "cargo_unload", "cargo_load", "boarding"];
    assert WideBody()[i].name == names[i];
  }

  lemma NarrowBodyAgrees(i: nat)
    requires i < |NarrowBody()|
    ensures Allocates(NarrowBody()[i]) && Staffs(NarrowBody()[i]) && NarrowBody()[i].name != "de_icing"
  {
  }

  lemma DeIcingDiffers(t: Template)
    requires t.name == "de_icing" && t.certification == Some("fueling") && t.equipment == Some("de_icing_truck")
    ensures Staffs(t) && !Allocates(t) && EQ.RequiredKind(t.name) == None
  {
  }

  /** Neither duration nor number matters for what a task needs. */
  lemma SameNeeds(t: Template, u: Template)
    requires u.name == t.name && u.certification == t.certification && u.equipment == t.equipment
    ensures (Allocates(u) <==> Allocates(t)) && (Staffs(u) <==> Staffs(t))
  {
  }

  /** Every task of a plan but de-icing comes from the table. */
  lemma TableEntry(plan: seq<Template>, base: seq<Template>, first: real, deIcing: bool, temperature: Option<real>,
                   second: real, j: nat) returns (i: nat)
    requires base != [] && MadeFrom(plan, base, first, deIcing, temperature, second) && j < |plan|
    requires !(deIcing && j == |base| - 1)
    ensures i < |base|
    ensures plan[j].name == base[i].name && plan[j].certification == base[i].certification
    ensures plan[j].equipment == base[i].equipment
  {
    i := if j < |base| - 1 then j else |base| - 1;
    var t := base[i];
    assert Placed(Template(t.name, Minutes(t.minutes, first, second), t.certification, t.equipment, t.order), plan,
                  |base|, i);
  }

  lemma TableAgrees(aircraftType: string, i: nat)
    requires i < |BaseTemplate(aircraftType)|
    ensures var t := BaseTemplate(aircraftType)[i]; Allocates(t) && Staffs(t) && t.name != "de_icing"
  {
    if BaseTemplate(aircraftType) == WideBody() {
      WideBodyAgrees(i);
    } else {
      NarrowBodyAgrees(i);
    }
  }

  /**
    Both services agree on what every task of every plan needs, but for de-icing: its truck stands in the plan and in
    no entry of the map, so none is ever allocated. Every task but deboarding needs crew.
  */
  lemma ServicesAgree(aircraftType: string, deIcing: bool, temperature: Option<real>, factor: real, j: nat)
    requires Turnaround.Plan(aircraftType, deIcing, temperature, factor).Some?
    requires j < |Turnaround.Plan(aircraftType, deIcing, temperature, factor).value|
    ensures var t := Turnaround.Plan(aircraftType, deIcing, temperature, factor).value[j];
            && Staffs(t)
            && (Allocates(t) <==> t.name != "de_icing")
            && (t.name == "de_icing" ==> EQ.RequiredKind(t.name) == None && t.equipment == Some("de_icing_truck"))
  {
    Turnaround.PlanIsNumbered(aircraftType, deIcing, temperature, factor);
    TablesAreNumbered(aircraftType);
    PlannedTasks(aircraftType, deIcing, temperature, factor);
    var plan := Turnaround.Plan(aircraftType, deIcing, temperature, factor).value;
    var base, first := BaseTemplate(aircraftType), AircraftFactor(aircraftType);
    if deIcing && j == |base| - 1 {
      DeIcingDiffers(plan[j]);
    } else {
      var i := TableEntry(plan, base, first, deIcing, temperature, factor, j);
      TableAgrees(aircraftType, i);
      SameNeeds(base[i], plan[j]);
    }
  }

  // ---------- The lists of the known types ----------

  function MinutesOf(tasks: seq<Template>): seq<int> {
    seq(|tasks|, i requires 0 <= i < |tasks| => tasks[i].minutes)
  }

  /** The minutes of the four known types, rounded half up where they are scaled. */
  lemma KnownTypes()
    ensures MinutesOf(TasksForAircraft("A380").value) == [45, 60, 40, 50, 55, 55, 50]
    ensures MinutesOf(TasksForAircraft("A350").value) == [38, 51, 34, 43, 47, 47, 43]
    ensures MinutesOf(TasksForAircraft("B787").value) == [36, 48, 32, 40, 44, 44, 40]
    ensures MinutesOf(TasksForAircraft("B737").value) == [20, 30, 20, 25, 25]
  {
    ScaledMinutes(0.85);
    ScaledMinutes(0.8);
  }

  lemma ScaledMinutes(factor: real)
    ensures MinutesOf(ScaleTasks(WideBody(), factor)) ==
            [MathRound(45.0 * factor), MathRound(60.0 * factor), MathRound(40.0 * factor), MathRound(50.0 * factor),
             MathRound(55.0 * factor), MathRound(55.0 * factor), MathRound(50.0 * factor)]
  {
  }

  /** Every other type falls back to the narrow-body list, but for twelve names that find something else than a list. */
  lemma OtherTypes(aircraftType: string)
    requires aircraftType != "A380" && aircraftType != "A350" && aircraftType != "B787"
    ensures TasksForAircraft(aircraftType) ==
            if || aircraftType == "constructor" || aircraftType == "hasOwnProperty" || aircraftType == "isPrototypeOf"
               || aircraftType == "propertyIsEnumerable" || aircraftType == "toLocaleString"
               || aircraftType == "toString" || aircraftType == "valueOf" || aircraftType == "__proto__"
               || aircraftType == "__defineGetter__" || aircraftType == "__defineSetter__"
               || aircraftType == "__lookupGetter__" || aircraftType == "__lookupSetter__"
            then None else TasksForAircraft("B737")
  {
    InheritedNamesAreLong("constructor");
    if aircraftType == "B737" {
      assert !Inherited(aircraftType) by {
        if Inherited(aircraftType) {
          InheritedNamesAreLong(aircraftType);
        }
      }
    }
  }
}
