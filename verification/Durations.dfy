/** How far rounding after each of two factors moves the total duration of a plan. */
module Durations {
  import opened Wrappers
  import opened Rounding
  import opened TaskTemplates
  import Turnaround

  /** The minutes of all tasks together. */
  function Total(tasks: seq<Template>): int {
    if tasks == [] then 0 else tasks[0].minutes + Total(tasks[1..])
  }

  function Abs(x: real): real {
    if x < 0.0 then -x else x
  }

  function Product(x: real, first: real, second: real): real {
    x * first * second
  }

  /** The distance between rounding after each factor and the exact product. */
  function Drift(tasks: seq<Template>, first: real, second: real): real {
    Abs(Total(ScaleTasks(ScaleTasks(tasks, first), second)) as real - Product(Total(tasks) as real, first, second))
  }

  lemma ProductAdds(x: real, y: real, first: real, second: real)
    ensures Product(x + y, first, second) == Product(x, first, second) + Product(y, first, second)
  {
  }

  /** One task is off by at most half a minute from each rounding, the first one scaled by the second factor. */
  lemma OneTaskDrift(x: real, once: int, twice: int, first: real, second: real)
    requires second >= 0.0 && once == MathRound(x * first) && twice == MathRound(once as real * second)
    ensures Abs(twice as real - Product(x, first, second)) <= 0.5 + 0.5 * second
  {
    var y := x * first;
    var e := once as real - y;
    assert -0.5 <= e <= 0.5;
    ScaleInequality(e, 0.5, second);
    ScaleInequality(-0.5, e, second);
    var z := once as real * second;
    assert z == y * second + e * second;
    assert -0.5 <= twice as real - z <= 0.5;
  }

  function Slack(tasks: nat, second: real): real {
    tasks as real * (0.5 + 0.5 * second)
  }

  lemma SlackAdds(tasks: nat, second: real)
    ensures Slack(tasks + 1, second) == Slack(tasks, second) + (0.5 + 0.5 * second)
  {
  }

  lemma ScaleRest(tasks: seq<Template>, factor: real)
    requires tasks != []
    ensures ScaleTasks(tasks, factor)[1..] == ScaleTasks(tasks[1..], factor)
  {
  }

  /** Rounding after each of two factors moves the total by at most (1 + second factor) / 2 minutes per task. */
  lemma {:induction false} TwoStageRounding(tasks: seq<Template>, first: real, second: real)
    requires second >= 0.0
    ensures Drift(tasks, first, second) <= Slack(|tasks|, second)
  {
    if tasks == [] {
      assert Product(0.0, first, second) == 0.0;
    } else {
      var rest := tasks[1..];
      var once := ScaleTasks(tasks, first);
      var twice := ScaleTasks(once, second);
      TwoStageRounding(rest, first, second);
      ScaleRest(tasks, first);
      ScaleRest(once, second);
      OneTaskDrift(tasks[0].minutes as real, once[0].minutes, twice[0].minutes, first, second);
      ProductAdds(tasks[0].minutes as real, Total(rest) as real, first, second);
      SlackAdds(|rest|, second);
      assert Total(tasks) as real == tasks[0].minutes as real + Total(rest) as real;
      assert Total(twice) as real == twice[0].minutes as real + Total(twice[1..]) as real;
    }
  }

  lemma {:induction false} TotalOfTwoParts(front: seq<Template>, back: seq<Template>)
    ensures Total(front + back) == Total(front) + Total(back)
  {
    if front == [] {
      assert front + back == back;
    } else {
      TotalOfTwoParts(front[1..], back);
      assert (front + back)[1..] == front[1..] + back;
    }
  }

  lemma TotalOfThreeParts(front: seq<Template>, middle: seq<Template>, back: seq<Template>)
    ensures Total(front + middle + back) == Total(front) + Total(middle) + Total(back)
  {
    TotalOfTwoParts(front, middle);
    TotalOfTwoParts(front + middle, back);
  }

  lemma TotalOfOne(x: Template)
    ensures Total([x]) == x.minutes
  {
    assert [x][1..] == [];
  }

  lemma SplitAround(tasks: seq<Template>, b: nat)
    requires b < |tasks|
    ensures tasks == tasks[..b] + [tasks[b]] + tasks[b + 1..]
  {
  }

  /** Replacing one task by a pair changes the total by what the pair differs. */
  lemma TotalWithPair(front: seq<Template>, replaced: Template, x: Template, y: Template, back: seq<Template>)
    ensures Total(front + [x, y] + back) == Total(front + [replaced] + back) - replaced.minutes + x.minutes + y.minutes
  {
    TotalOfThreeParts(front, [x, y], back);
    TotalOfTwoParts([x], [y]);
    assert [x] + [y] == [x, y];
    TotalOfOne(x);
    TotalOfOne(y);
    TotalOfThreeParts(front, [replaced], back);
    TotalOfOne(replaced);
  }

  /** De-icing adds its own minutes and nothing else. */
  lemma TotalWithDeIcing(tasks: seq<Template>, ice: Template, b: nat)
    requires b < |tasks|
    ensures Total(WithDeIcing(tasks, ice, b)) == Total(tasks) + ice.minutes
  {
    SplitAround(tasks, b);
    TotalWithPair(tasks[..b], tasks[b], ice, tasks[b].(order := b + 2), tasks[b + 1..]);
  }

  /** The minutes of the plan, without those of a de-icing task. */
  function PlannedMinutes(aircraftType: string, deIcing: bool, temperature: Option<real>, factor: real): int
    requires Turnaround.Plan(aircraftType, deIcing, temperature, factor).Some?
  {
    var all := Total(Turnaround.Plan(aircraftType, deIcing, temperature, factor).value);
    if deIcing then all - HoldoverMinutes(temperature) else all
  }

  /**
    For every aircraft type with a plan, the planned minutes stay near the exact product of the type's table and both
    factors.
  */
  lemma PlanDuration(aircraftType: string, deIcing: bool, temperature: Option<real>, factor: real)
    requires Turnaround.Plan(aircraftType, deIcing, temperature, factor).Some? && factor >= 0.0
    ensures var base := BaseTemplate(aircraftType);
            var exact := Product(Total(base) as real, AircraftFactor(aircraftType), factor);
            Abs(PlannedMinutes(aircraftType, deIcing, temperature, factor) as real - exact) <= Slack(|base|, factor)
  {
    PlannedMinutesAre(aircraftType, deIcing, temperature, factor);
    TwoStageRounding(BaseTemplate(aircraftType), AircraftFactor(aircraftType), factor);
  }

  lemma PlannedTotal(templates: seq<Template>, deIcing: bool, temperature: Option<real>, factor: real)
    requires templates != []
    ensures Total(Turnaround.Planned(templates, deIcing, temperature, factor)) ==
            Total(ScaleTasks(templates, factor)) + if deIcing then HoldoverMinutes(temperature) else 0
  {
    var scaled := ScaleTasks(templates, factor);
    if deIcing {
      TotalWithDeIcing(scaled, DeIcingTask(|scaled| - 1, temperature), |scaled| - 1);
    }
  }

  lemma PlannedMinutesAre(aircraftType: string, deIcing: bool, temperature: Option<real>, factor: real)
    requires Turnaround.Plan(aircraftType, deIcing, temperature, factor).Some?
    ensures PlannedMinutes(aircraftType, deIcing, temperature, factor) ==
            Total(ScaleTasks(ScaleTasks(BaseTemplate(aircraftType), AircraftFactor(aircraftType)), factor))
  {
    LookupIsScaledTable(aircraftType);
    Turnaround.PlanIsNumbered(aircraftType, deIcing, temperature, factor);
    PlannedTotal(TasksForAircraft(aircraftType).value, deIcing, temperature, factor);
  }

  /** Under low visibility, with the factor 1.2, the plan is off by at most 1.1 minutes per task. */
  lemma LowVisibilityPlan(aircraftType: string, deIcing: bool, temperature: Option<real>)
    requires Turnaround.Plan(aircraftType, deIcing, temperature, 1.2).Some?
    ensures var base := BaseTemplate(aircraftType);
            var exact := Product(Total(base) as real, AircraftFactor(aircraftType), 1.2);
            Abs(PlannedMinutes(aircraftType, deIcing, temperature, 1.2) as real - exact) <= |base| as real * 1.1
  {
    PlanDuration(aircraftType, deIcing, temperature, 1.2);
  }
}
