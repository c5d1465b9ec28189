/** Aircraft task templates, weather adjustments, and the insertion of the de-icing task. */
module TaskTemplates {
  import opened Wrappers
  import opened Rounding
  import opened Sorting

  datatype Template = Template(name: string, minutes: int, certification: Option<string>, equipment: Option<string>,
                               order: int)

  function WideBody(): seq<Template> {
    [ Template("deboarding", 45, None, Some("gpu"), 1),
      Template("fueling", 60, Some("fueling"), Some("fuel_truck"), 2),
      Template("catering", 40, Some("catering"), Some("catering_truck"), 3),
      Template("cabin_cleaning", 50, Some("cleaning"), None, 4),
      Template("cargo_unload", 55, Some("cargo"), Some("belt_loader"), 5),
      Template("cargo_load", 55, Some("cargo"), Some("belt_loader"), 6),
      Template("boarding", 50, Some("boarding"), Some("gpu"), 7) ]
  }

  function NarrowBody(): seq<Template> {
    [ Template("deboarding", 20, None, Some("gpu"), 1),
      Template("fueling", 30, Some("fueling"), Some("fuel_truck"), 2),
      Template("catering", 20, Some("catering"), Some("catering_truck"), 3),
      Template("cabin_cleaning", 25, Some("cleaning"), None, 4),
      Template("boarding", 25, Some("boarding"), Some("gpu"), 5) ]
  }

  function ScaledTask(t: Template, factor: real): Template {
    t.(minutes := MathRound(t.minutes as real * factor))
  }

  function ScaleTasks(tasks: seq<Template>, factor: real): (r: seq<Template>)
    ensures |r| == |tasks|
    ensures forall i :: 0 <= i < |tasks| ==> r[i] == ScaledTask(tasks[i], factor)
  {
    seq(|tasks|, i requires 0 <= i < |tasks| => ScaledTask(tasks[i], factor))
  }

  /** The names every object literal inherits from Object.prototype. */
  predicate Inherited(name: string) {
    name in {"constructor", "hasOwnProperty", "isPrototypeOf", "propertyIsEnumerable", "toLocaleString", "toString",
             "valueOf",
             "__proto__", "__defineGetter__", "__defineSetter__", "__lookupGetter__", "__lookupSetter__"}
  }

  /** The template lookup with its fallback; None is an inherited member, which is truthy but no list of tasks. */
  function TasksForAircraft(aircraftType: string): Option<seq<Template>> {
    if aircraftType == "A380" then Some(WideBody())
    else if aircraftType == "A350" then Some(ScaleTasks(WideBody(), 0.85))
    else if aircraftType == "B787" then Some(ScaleTasks(WideBody(), 0.8))
    else if aircraftType == "B737" then Some(NarrowBody())
    else if Inherited(aircraftType) then None
    else Some(NarrowBody())
  }

  /** The unscaled table behind an aircraft type, and the factor it is scaled by. */
  function BaseTemplate(aircraftType: string): seq<Template> {
    if aircraftType in {"A380", "A350", "B787"} then WideBody() else NarrowBody()
  }

  function AircraftFactor(aircraftType: string): real {
    if aircraftType == "A350" then 0.85 else if aircraftType == "B787" then 0.8 else 1.0
  }

  function Order(t: Template): int {
    t.order
  }

  // ---------- De-icing ----------

  /** The index `find` returns, or the length when nothing is found. */
  function FindName(tasks: seq<Template>, name: string): (k: nat)
    ensures k <= |tasks|
    ensures k < |tasks| ==> tasks[k].name == name
    ensures forall i :: 0 <= i < k ==> tasks[i].name != name
  {
    if tasks == [] then 0
    else if tasks[0].name == name then 0
    else 1 + FindName(tasks[1..], name)
  }

  function MaxOrder(tasks: seq<Template>): (m: int)
    requires tasks != []
    ensures forall i :: 0 <= i < |tasks| ==> tasks[i].order <= m
    ensures exists i :: 0 <= i < |tasks| && tasks[i].order == m
  {
    if |tasks| == 1 then tasks[0].order
    else
      var rest := MaxOrder(tasks[1..]);
      assert forall i :: 1 <= i < |tasks| ==> tasks[i] == tasks[1..][i - 1];
      assert exists i :: 0 <= i < |tasks| && tasks[i].order == rest by {
        var i :| 0 <= i < |tasks[1..]| && tasks[1..][i].order == rest;
        assert tasks[i + 1].order == rest;
      }
      if tasks[0].order < rest then rest else tasks[0].order
  }

  function HoldoverMinutes(temperature: Option<real>): int {
    var t := if temperature.Some? then temperature.value else 0.0;
    if t < -10.0 then 45 else if t < -3.0 then 30 else 20
  }

  function DeIcingTask(insertAfterOrder: int, temperature: Option<real>): Template {
    Template("de_icing", HoldoverMinutes(temperature), Some("fueling"), Some("de_icing_truck"), insertAfterOrder + 1)
  }

  function Moved(tasks: seq<Template>, b: nat): seq<Template>
    requires b < |tasks|
  {
    tasks[b := tasks[b].(order := tasks[b].order + 1)]
  }

  /** The insertion as the creation code performs it: take boarding's order, push, sort. */
  function InjectDeIcing(tasks: seq<Template>, temperature: Option<real>): (r: seq<Template>)
    requires tasks != []
    ensures |r| == |tasks| + 1
  {
    var ice := DeIcingTask(MaxOrder(tasks), temperature);
    var b := FindName(tasks, "boarding");
    if b == |tasks| then StableSort(tasks + [ice], Order)
    else StableSort(Moved(tasks, b) + [ice.(order := tasks[b].order)], Order)
  }

  /** Orders 1, 2, ..., n in sequence. */
  ghost predicate Numbered(tasks: seq<Template>) {
    forall i :: 0 <= i < |tasks| ==> tasks[i].order == i + 1
  }

  lemma NumberedMax(tasks: seq<Template>)
    requires tasks != [] && Numbered(tasks)
    ensures MaxOrder(tasks) == |tasks|
  {
    assert tasks[|tasks| - 1].order == |tasks|;
  }

  /** Without a boarding task, de-icing goes last. */
  lemma InjectionWithoutBoarding(tasks: seq<Template>, temperature: Option<real>)
    requires tasks != [] && Numbered(tasks) && FindName(tasks, "boarding") == |tasks|
    ensures InjectDeIcing(tasks, temperature) == tasks + [DeIcingTask(|tasks|, temperature)]
  {
    NumberedMax(tasks);
    SortAfterPush(tasks, DeIcingTask(|tasks|, temperature), Order, |tasks|);
    assert tasks[..|tasks|] == tasks && tasks[|tasks|..] == [];
  }

  /** The tasks with de-icing just before position b, whose task moves up by one. */
  function WithDeIcing(tasks: seq<Template>, ice: Template, b: nat): seq<Template>
    requires b < |tasks|
  {
    tasks[..b] + [ice, tasks[b].(order := b + 2)] + tasks[b + 1..]
  }

  lemma MovedOrders(tasks: seq<Template>, b: nat)
    requires b < |tasks| && Numbered(tasks)
    ensures Sorted(Moved(tasks, b), Order)
    ensures forall i :: 0 <= i < |tasks| ==> Moved(tasks, b)[i].order == if i == b then b + 2 else i + 1
  {
  }

  lemma MovedShape(tasks: seq<Template>, ice: Template, b: nat)
    requires b < |tasks| && Numbered(tasks)
    ensures Moved(tasks, b)[..b] + [ice] + Moved(tasks, b)[b..] == WithDeIcing(tasks, ice, b)
  {
  }

  lemma InjectionIsSort(tasks: seq<Template>, temperature: Option<real>, b: nat)
    requires b == FindName(tasks, "boarding") < |tasks| && tasks[b].order == b + 1
    ensures InjectDeIcing(tasks, temperature) == StableSort(Moved(tasks, b) + [DeIcingTask(b, temperature)], Order)
  {
    assert DeIcingTask(MaxOrder(tasks), temperature).(order := tasks[b].order) == DeIcingTask(b, temperature);
  }

  lemma MovedSorts(tasks: seq<Template>, ice: Template, b: nat)
    requires b < |tasks| && Numbered(tasks) && ice.order == b + 1
    ensures StableSort(Moved(tasks, b) + [ice], Order) == WithDeIcing(tasks, ice, b)
  {
    MovedOrders(tasks, b);
    SortAfterPush(Moved(tasks, b), ice, Order, b);
    MovedShape(tasks, ice, b);
  }

  /** On any numbered template every task is kept, and de-icing comes just before the first boarding task. */
  lemma InjectionBeforeBoarding(tasks: seq<Template>, temperature: Option<real>, b: nat)
    requires tasks != [] && Numbered(tasks) && b == FindName(tasks, "boarding") < |tasks|
    ensures InjectDeIcing(tasks, temperature) == WithDeIcing(tasks, DeIcingTask(b, temperature), b)
  {
    InjectionIsSort(tasks, temperature, b);
    MovedSorts(tasks, DeIcingTask(b, temperature), b);
  }

  /** The new schedule is numbered 1..n+1 exactly when boarding, if present, was the last task. */
  lemma InjectionKeepsNumberingIff(tasks: seq<Template>, temperature: Option<real>)
    requires tasks != [] && Numbered(tasks)
    ensures |InjectDeIcing(tasks, temperature)| == |tasks| + 1 && Sorted(InjectDeIcing(tasks, temperature), Order)
    ensures Numbered(InjectDeIcing(tasks, temperature)) <==> FindName(tasks, "boarding") >= |tasks| - 1
  {
    var b := FindName(tasks, "boarding");
    if b == |tasks| {
      InjectionWithoutBoarding(tasks, temperature);
      NumberedLonger(tasks, DeIcingTask(b, temperature));
    } else {
      InjectionBeforeBoarding(tasks, temperature, b);
      NumberedAfter(tasks, DeIcingTask(b, temperature), b);
    }
  }

  lemma NumberedLonger(tasks: seq<Template>, ice: Template)
    requires Numbered(tasks) && ice.order == |tasks| + 1
    ensures Sorted(tasks + [ice], Order) && Numbered(tasks + [ice])
  {
  }

  lemma NumberedAfter(tasks: seq<Template>, ice: Template, b: nat)
    requires b < |tasks| && Numbered(tasks) && ice.order == b + 1
    ensures Sorted(WithDeIcing(tasks, ice, b), Order)
    ensures Numbered(WithDeIcing(tasks, ice, b)) <==> b == |tasks| - 1
  {
    var after := WithDeIcing(tasks, ice, b);
    assert forall i :: 0 <= i < |after| ==> after[i].order == if i <= b + 1 then i + 1 else i;
    if b < |tasks| - 1 {
      assert after[b + 2].order == b + 2;
    }
  }

  /** Numbered, with the only boarding task last. */
  ghost predicate WellFormed(tasks: seq<Template>) {
    tasks != [] && Numbered(tasks) && FindName(tasks, "boarding") == |tasks| - 1
  }

  /** A scaled copy differs in the durations only. */
  lemma ScalingKeepsTasks(tasks: seq<Template>, factor: real)
    ensures var scaled := ScaleTasks(tasks, factor);
            && |scaled| == |tasks|
            && (forall i :: 0 <= i < |tasks| ==> scaled[i].(minutes := tasks[i].minutes) == tasks[i])
            && (WellFormed(tasks) ==> WellFormed(scaled))
  {
  }

  /** On a well-formed list the insertion puts de-icing before the final boarding and keeps the numbering. */
  lemma InjectionIntoWellFormed(tasks: seq<Template>, temperature: Option<real>)
    requires WellFormed(tasks)
    ensures InjectDeIcing(tasks, temperature) == WithDeIcing(tasks, DeIcingTask(|tasks| - 1, temperature), |tasks| - 1)
    ensures Numbered(InjectDeIcing(tasks, temperature))
  {
    InjectionBeforeBoarding(tasks, temperature, |tasks| - 1);
    InjectionKeepsNumberingIff(tasks, temperature);
  }

  lemma LastIsBoarding(tasks: seq<Template>)
    requires WellFormed(tasks)
    ensures tasks[|tasks| - 1].name == "boarding"
  {
  }

  /** De-icing in front of the last task takes its number, and the last task the next one. */
  lemma IcingKeepsLast(tasks: seq<Template>, ice: Template)
    requires tasks != [] && Numbered(tasks) && ice.order == |tasks|
    ensures var iced := WithDeIcing(tasks, ice, |tasks| - 1);
            && |iced| == |tasks| + 1 && Numbered(iced)
            && iced[|tasks|].name == tasks[|tasks| - 1].name
  {
    var iced, n := WithDeIcing(tasks, ice, |tasks| - 1), |tasks|;
    assert iced == tasks[..n - 1] + [ice, tasks[n - 1].(order := n + 1)];
  }

  lemma InheritedNamesAreLong(name: string)
    requires Inherited(name)
    ensures |name| >= 7
  {
  }

  lemma UnitFactorKeepsTasks(tasks: seq<Template>)
    ensures ScaleTasks(tasks, 1.0) == tasks
  {
  }

  /** A list is found exactly when the name is not inherited; it is the type's table scaled by the type's factor. */
  lemma LookupIsScaledTable(aircraftType: string)
    ensures TasksForAircraft(aircraftType).Some? <==> !Inherited(aircraftType)
    ensures TasksForAircraft(aircraftType).Some? ==>
              TasksForAircraft(aircraftType).value ==
              ScaleTasks(BaseTemplate(aircraftType), AircraftFactor(aircraftType))
  {
    if Inherited(aircraftType) {
      InheritedNamesAreLong(aircraftType);
    }
    UnitFactorKeepsTasks(BaseTemplate(aircraftType));
  }

  /** Every list that is found meets the condition. */
  lemma TemplatesAreWellFormed(aircraftType: string)
    requires !Inherited(aircraftType)
    ensures TasksForAircraft(aircraftType).Some? && WellFormed(TasksForAircraft(aircraftType).value)
  {
    LookupIsScaledTable(aircraftType);
    WideBodyIsWellFormed();
    NarrowBodyIsWellFormed();
    ScalingKeepsTasks(BaseTemplate(aircraftType), AircraftFactor(aircraftType));
  }

  lemma LastIsFound(tasks: seq<Template>)
    requires tasks != [] && tasks[|tasks| - 1].name == "boarding"
    requires forall i :: 0 <= i < |tasks| - 1 ==> tasks[i].name != "boarding"
    ensures FindName(tasks, "boarding") == |tasks| - 1
  {
  }

  lemma WideBodyNames(i: nat)
    requires i < 6
    ensures |WideBody()| == 7 && WideBody()[i].name != "boarding"
  {
  }

  lemma WideBodyNumbers()
    ensures |WideBody()| == 7 && Numbered(WideBody()) && WideBody()[6].name == "boarding"
  {
  }

  lemma WideBodyIsWellFormed()
    ensures WellFormed(WideBody())
  {
    WideBodyNumbers();
    forall i: nat | i < 6 ensures WideBody()[i].name != "boarding" {
      WideBodyNames(i);
    }
    LastIsFound(WideBody());
  }

  lemma NarrowBodyIsWellFormed()
    ensures WellFormed(NarrowBody())
  {
  }
}
