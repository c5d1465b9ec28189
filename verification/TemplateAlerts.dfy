/** The tasks that plans are made of: which of their stuck alerts hide which others. */
module TemplateAlerts {
  import opened Wrappers
  import opened LikePattern
  import opened Alerts
  import opened Transitions
  import TT = TaskTemplates
  import Turnaround
  import AS = AlertScheduler

  const TEMPLATE_NAMES: seq<string> :=
    ["deboarding", "fueling", "catering", "cabin_cleaning", "cargo_unload", "cargo_load", "boarding", "de_icing"]

  /** A duration as `{:.0}` writes it. */
  predicate Digits(s: string) {
    forall i :: 0 <= i < |s| ==> '0' <= s[i] <= '9'
  }

  // ---------- Plans use these names only ----------

  ghost predicate Named(tasks: seq<TT.Template>) {
    forall i :: 0 <= i < |tasks| ==> tasks[i].name in TEMPLATE_NAMES
  }

  lemma TemplatesAreNamed()
    ensures Named(TT.WideBody()) && Named(TT.NarrowBody()) && "de_icing" in TEMPLATE_NAMES
  {
    var t := TEMPLATE_NAMES;
    assert t[0] == "deboarding" && t[1] == "fueling" && t[2] == "catering" && t[3] == "cabin_cleaning";
    assert t[4] == "cargo_unload" && t[5] == "cargo_load" && t[6] == "boarding" && t[7] == "de_icing";
  }

  lemma ScalingKeepsNames(tasks: seq<TT.Template>, factor: real)
    requires Named(tasks)
    ensures Named(TT.ScaleTasks(tasks, factor))
  {
  }

  lemma PlannedIsNamed(templates: seq<TT.Template>, deIcing: bool, temperature: Option<real>, factor: real)
    requires templates != [] && Named(templates) && "de_icing" in TEMPLATE_NAMES
    ensures Named(Turnaround.Planned(templates, deIcing, temperature, factor))
  {
    ScalingKeepsNames(templates, factor);
  }

  /** Every task of every plan has one of the eight names. */
  lemma PlansAreNamed(aircraftType: string, deIcing: bool, temperature: Option<real>, factor: real)
    requires Turnaround.Plan(aircraftType, deIcing, temperature, factor).Some?
    ensures Named(Turnaround.Plan(aircraftType, deIcing, temperature, factor).value)
  {
    TemplatesAreNamed();
    TT.LookupIsScaledTable(aircraftType);
    Turnaround.PlanIsNumbered(aircraftType, deIcing, temperature, factor);
    ScalingKeepsNames(TT.BaseTemplate(aircraftType), TT.AircraftFactor(aircraftType));
    PlannedIsNamed(TT.TasksForAircraft(aircraftType).value, deIcing, temperature, factor);
  }

  // ---------- Telling names apart ----------

  /** Wherever `anchor` stands in the name, `other` does not stand `offset` places after it. */
  ghost predicate Apart(name: string, anchor: char, other: char, offset: int) {
    forall j :: 0 <= j < |name| && name[j] == anchor && 0 <= j + offset < |name| ==> name[j + offset] != other
  }

  predicate Hides(shown: string, sought: string) {
    shown == sought || (shown == "deboarding" && sought == "boarding")
  }

  /** A letter of the sought name, and another one at a fixed distance, that no other name has at this distance. */
  datatype Mark = Mark(at: nat, offset: int)

  lemma DeboardingIsApart(shown: string)
    requires shown in TEMPLATE_NAMES && shown != "deboarding"
    ensures Apart(shown, 'b', 'e', -1)
  {
  }

  lemma FuelingIsApart(shown: string)
    requires shown in TEMPLATE_NAMES && shown != "fueling"
    ensures Apart(shown, 'f', 'u', 1)
  {
  }

  lemma CateringIsApart(shown: string)
    requires shown in TEMPLATE_NAMES && shown != "catering"
    ensures Apart(shown, 'c', 't', 2)
  {
  }

  lemma CabinCleaningIsApart(shown: string)
    requires shown in TEMPLATE_NAMES && shown != "cabin_cleaning"
    ensures Apart(shown, 'c', 'b', 2)
  {
  }

  lemma CargoUnloadIsApart(shown: string)
    requires shown in TEMPLATE_NAMES && shown != "cargo_unload"
    ensures Apart(shown, 'o', 'u', 2)
  {
  }

  lemma CargoLoadIsApart(shown: string)
    requires shown in TEMPLATE_NAMES && shown != "cargo_load"
    ensures Apart(shown, 'o', 'l', 2)
  {
  }

  lemma BoardingIsApart(shown: string)
    requires shown in TEMPLATE_NAMES && shown != "boarding" && shown != "deboarding"
    ensures Apart(shown, 'b', 'o', 1)
  {
  }

  lemma DeIcingIsApart(shown: string)
    requires shown in TEMPLATE_NAMES && shown != "de_icing"
    ensures Apart(shown, 'c', 'n', 2)
  {
  }

  const ANCHORS: set<char> := {'b', 'f', 'c', 'o'}

  /** The mark's first letter occurs in no fixed part of the text, and its second one beside no name. */
  ghost predicate Tells(shown: string, sought: string, m: Mark) {
    && m.at < |sought| && 0 <= m.at + m.offset < |sought| && -1 <= m.offset <= 2
    && sought[m.at] in ANCHORS && sought[m.at + m.offset] !in {'_', ' ', 'r'}
    && Apart(shown, sought[m.at], sought[m.at + m.offset], m.offset)
  }

  /** Every name that does not hide the other one is told apart from it. */
  lemma Tell(shown: string, sought: string) returns (m: Mark)
    requires shown in TEMPLATE_NAMES && sought in TEMPLATE_NAMES && !Hides(shown, sought)
    ensures Tells(shown, sought, m)
  {
    if sought == "deboarding" {
      m := Mark(2, -1);
      DeboardingIsApart(shown);
    } else if sought == "fueling" {
      m := Mark(0, 1);
      FuelingIsApart(shown);
    } else if sought == "catering" {
      m := Mark(0, 2);
      CateringIsApart(shown);
    } else if sought == "cabin_cleaning" {
      m := Mark(0, 2);
      CabinCleaningIsApart(shown);
    } else if sought == "cargo_unload" {
      m := Mark(4, 2);
      CargoUnloadIsApart(shown);
    } else if sought == "cargo_load" {
      m := Mark(4, 2);
      CargoLoadIsApart(shown);
    } else if sought == "boarding" {
      m := Mark(0, 1);
      BoardingIsApart(shown);
    } else {
      m := Mark(4, 2);
      DeIcingIsApart(shown);
    }
  }

  lemma NamesAreLiteral(name: string)
    requires name in TEMPLATE_NAMES
    ensures NoEscape(name) && NoPercent(name)
  {
  }

  // ---------- The text of a stuck alert ----------

  const HEAD: string := "Task "

  function Tail(elapsed: string, estimated: string): string {
    " running " + elapsed + "min (estimated " + estimated + "min)"
  }

  ghost predicate NoAnchor(s: string) {
    forall i :: 0 <= i < |s| ==> s[i] !in ANCHORS
  }

  lemma FixedTextHasNoAnchor(elapsed: string, estimated: string)
    requires Digits(elapsed) && Digits(estimated)
    ensures NoAnchor(HEAD) && NoAnchor(Tail(elapsed, estimated))
    ensures |Tail(elapsed, estimated)| >= 2 && Tail(elapsed, estimated)[0] == ' ' && Tail(elapsed, estimated)[1] == 'r'
  {
    assert NoAnchor(" running ") && NoAnchor("min (estimated ") && NoAnchor("min)");
    assert NoAnchor(elapsed) && NoAnchor(estimated);
  }

  /** Putting a name into the text brings no further anchor, and beside the name only a space or an "r". */
  lemma TextIsApart(name: string, tail: string, anchor: char, other: char, offset: int)
    requires anchor in ANCHORS && other !in {' ', 'r'} && -1 <= offset <= 2 && Apart(name, anchor, other, offset)
    requires NoAnchor(tail) && |tail| >= 2 && tail[0] == ' ' && tail[1] == 'r'
    ensures Apart(HEAD + name + tail, anchor, other, offset)
  {
    var text := HEAD + name + tail;
    assert NoAnchor(HEAD);
    forall p | 0 <= p < |text| && text[p] == anchor && 0 <= p + offset < |text| ensures text[p + offset] != other {
      var j := p - |HEAD|;
      assert 0 <= j < |name| && name[j] == anchor;
      if j + offset < 0 {
        assert text[p + offset] == HEAD[4] == ' ';
      } else if j + offset < |name| {
        assert text[p + offset] == name[j + offset];
      } else {
        assert text[p + offset] == tail[j + offset - |name|];
      }
    }
  }

  lemma FitHasMark(s: string, sought: string, m: Mark)
    requires NoEscape(sought) && m.at < |sought| && 0 <= m.at + m.offset < |sought|
    requires sought[m.at] != '_' && sought[m.at + m.offset] != '_' && FitsSomewhere(s, Tokens(sought))
    ensures !Apart(s, sought[m.at], sought[m.at + m.offset], m.offset)
  {
    PlainTokens(sought);
    var k: nat :| Fits(s, k, Tokens(sought));
    assert s[k + m.at] == sought[m.at] && s[k + m.at + m.offset] == sought[m.at + m.offset];
  }

  lemma DescriptionParts(task: string, elapsed: string, estimated: string)
    ensures StuckDescription(task, elapsed, estimated) == HEAD + task + Tail(elapsed, estimated)
  {
    assert HEAD + task + (" running " + elapsed + "min (estimated " + estimated + "min)") ==
      HEAD + task + " running " + elapsed + "min (estimated " + estimated + "min)";
  }

  /** Text for one template name matches the pattern of another exactly when the first hides the second. */
  lemma TemplateTextMatchesIff(shown: string, sought: string, elapsed: string, estimated: string)
    requires shown in TEMPLATE_NAMES && sought in TEMPLATE_NAMES && Digits(elapsed) && Digits(estimated)
    ensures Like(StuckDescription(shown, elapsed, estimated), Around(sought)) <==> Hides(shown, sought)
  {
    var tail := Tail(elapsed, estimated);
    NamesAreLiteral(sought);
    DescriptionParts(shown, elapsed, estimated);
    if shown == sought {
      ContainedWordMatches(HEAD, shown, tail);
    } else if Hides(shown, sought) {
      ContainedWordMatches(HEAD + "de", "boarding", tail);
      assert HEAD + "de" + "boarding" == HEAD + "deboarding";
    } else {
      var m := Tell(shown, sought);
      FixedTextHasNoAnchor(elapsed, estimated);
      TextIsApart(shown, tail, sought[m.at], sought[m.at + m.offset], m.offset);
      if FitsSomewhere(HEAD + shown + tail, Tokens(sought)) {
        FitHasMark(HEAD + shown + tail, sought, m);
      }
      EndsInBracket(HEAD + shown, elapsed, estimated);
      NoForeignMatch(HEAD + shown + tail, sought);
    }
  }

  lemma EndsInBracket(front: string, elapsed: string, estimated: string)
    ensures var text := front + Tail(elapsed, estimated); text != [] && text[|text| - 1] == ')'
  {
  }

  /**
    Among the eight tasks that plans are made of, the open stuck alert of one is counted for another of the same
    turnaround exactly when they are the same, or it is deboarding's and boarding is asked for. Nothing but deboarding
    hides a planned task.
  */
  lemma TemplateAlertsHideIff(ta: Id, shown: string, sought: string, elapsed: string, estimated: string)
    requires shown in TEMPLATE_NAMES && sought in TEMPLATE_NAMES && Digits(elapsed) && Digits(estimated)
    ensures var alert := AlertOf(Candidate(Stuck(ta, shown), StuckDescription(shown, elapsed, estimated)));
            Counted(alert, Stuck(ta, sought)) <==> Hides(shown, sought)
  {
    TemplateTextMatchesIff(shown, sought, elapsed, estimated);
  }

  // ---------- Which planned tasks get an alert of their own ----------

  /** A stuck candidate as the scan makes it for a planned task. */
  ghost predicate ForPlanned(c: Candidate) {
    && c.key.Stuck? && c.key.task in TEMPLATE_NAMES
    && exists elapsed, estimated ::
         Digits(elapsed) && Digits(estimated) && c.description == StuckDescription(c.key.task, elapsed, estimated)
  }

  predicate StuckOf(key: Key, ta: Id) {
    key.Stuck? && key.ta == ta
  }

  /** The scan alerts stuck tasks of the turnaround for planned ones only. */
  ghost predicate PlannedScan(cs: seq<Candidate>, ta: Id) {
    forall j :: 0 <= j < |cs| && StuckOf(cs[j].key, ta) ==> ForPlanned(cs[j])
  }

  /** An open row is a stuck alert of the turnaround exactly when a scan raised it, and then for a planned task. */
  ghost predicate PlannedRow(a: Alert, key: Option<Key>, ta: Id) {
    a.open ==>
      && (a.alertType == TaskStuck && a.subject == ta <==> key.Some? && StuckOf(key.value, ta))
      && (key.Some? && StuckOf(key.value, ta) ==> ForPlanned(Candidate(key.value, a.description)))
  }

  ghost predicate PlannedFor(b: Board, ta: Id) {
    |b.keys| == |b.alerts| && forall i :: 0 <= i < |b.alerts| ==> PlannedRow(b.alerts[i], b.keys[i], ta)
  }

  /** A task of the scan is the sought one, or hides it. */
  ghost predicate HiddenBySome(cs: seq<Candidate>, ta: Id, sought: string) {
    exists j :: 0 <= j < |cs| && StuckOf(cs[j].key, ta) && Hides(cs[j].key.task, sought)
  }

  lemma PlannedCountedIff(c: Candidate, ta: Id, sought: string)
    requires (StuckOf(c.key, ta) ==> ForPlanned(c)) && sought in TEMPLATE_NAMES
    ensures Counted(AlertOf(c), Stuck(ta, sought)) <==> StuckOf(c.key, ta) && Hides(c.key.task, sought)
  {
    if StuckOf(c.key, ta) {
      var elapsed, estimated :| Digits(elapsed) && Digits(estimated) &&
                                c.description == StuckDescription(c.key.task, elapsed, estimated);
      TemplateTextMatchesIff(c.key.task, sought, elapsed, estimated);
    }
  }

  lemma RowCountedIff(a: Alert, key: Option<Key>, ta: Id, sought: string)
    requires PlannedRow(a, key, ta) && sought in TEMPLATE_NAMES
    ensures Counted(a, Stuck(ta, sought)) <==>
            a.open && key.Some? && StuckOf(key.value, ta) && Hides(key.value.task, sought)
  {
    if a.open && key.Some? && StuckOf(key.value, ta) {
      PlannedCountedIff(Candidate(key.value, a.description), ta, sought);
      assert AlertOf(Candidate(key.value, a.description)) == a;
    }
  }

  /**
    An alert is counted for a planned task exactly when it has one of its own, or it is boarding and deboarding has.
  */
  lemma PlannedBoardCountsIff(b: Board, ta: Id, sought: string)
    requires PlannedFor(b, ta) && sought in TEMPLATE_NAMES
    ensures AnyCounted(b.alerts, Stuck(ta, sought)) <==>
            HasOwn(b, Stuck(ta, sought)) || (sought == "boarding" && HasOwn(b, Stuck(ta, "deboarding")))
  {
    forall i | 0 <= i < |b.alerts|
      ensures Counted(b.alerts[i], Stuck(ta, sought)) <==>
              b.alerts[i].open && b.keys[i].Some? && StuckOf(b.keys[i].value, ta) && Hides(b.keys[i].value.task, sought)
    {
      assert PlannedRow(b.alerts[i], b.keys[i], ta);
      RowCountedIff(b.alerts[i], b.keys[i], ta, sought);
    }
    if AnyCounted(b.alerts, Stuck(ta, sought)) {
      var i :| 0 <= i < |b.alerts| && Counted(b.alerts[i], Stuck(ta, sought));
      assert b.keys[i] == Some(Stuck(ta, b.keys[i].value.task));
    }
  }

  lemma RaiseKeepsPlanned(b: Board, c: Candidate, ta: Id)
    requires PlannedFor(b, ta) && (StuckOf(c.key, ta) ==> ForPlanned(c))
    ensures PlannedFor(Raise(b, c), ta)
  {
    assert Candidate(c.key, AlertOf(c).description) == c;
    assert PlannedRow(AlertOf(c), Some(c.key), ta);
  }

  /**
    Scans with planned tasks only keep every open stuck alert of the turnaround one that was raised for such a task.
  */
  lemma {:induction false} ScanKeepsPlanned(b: Board, cs: seq<Candidate>, ta: Id)
    requires PlannedFor(b, ta) && PlannedScan(cs, ta)
    ensures PlannedFor(RaiseAll(b, cs), ta)
  {
    if cs != [] {
      var n := |cs| - 1;
      ScanKeepsPlanned(b, cs[..n], ta);
      RaiseKeepsPlanned(RaiseAll(b, cs[..n]), cs[n], ta);
    }
  }

  lemma CountedAfterRaise(b: Board, c: Candidate, key: Key)
    ensures AnyCounted(Raise(b, c).alerts, key) <==>
            AnyCounted(b.alerts, key) || (!AnyCounted(b.alerts, c.key) && Counted(AlertOf(c), key))
  {
    var after := Raise(b, c);
    assert forall i :: 0 <= i < |b.alerts| ==> after.alerts[i] == b.alerts[i];
    if !AnyCounted(b.alerts, c.key) {
      assert after.alerts[|b.alerts|] == AlertOf(c);
    }
  }

  lemma HiddenByOneMore(cs: seq<Candidate>, ta: Id, sought: string)
    requires cs != []
    ensures var c := cs[|cs| - 1];
            HiddenBySome(cs, ta, sought) <==>
            HiddenBySome(cs[..|cs| - 1], ta, sought) || (StuckOf(c.key, ta) && Hides(c.key.task, sought))
  {
    var n := |cs| - 1;
    assert forall j :: 0 <= j < n ==> cs[..n][j] == cs[j];
  }

  /**
    After a scan an alert is counted for a planned task exactly when one was counted before it, or some scanned task
    hides it.
  */
  lemma {:induction false} CountedAfterScanIff(b: Board, cs: seq<Candidate>, ta: Id, sought: string)
    requires PlannedFor(b, ta) && PlannedScan(cs, ta) && sought in TEMPLATE_NAMES
    ensures AnyCounted(RaiseAll(b, cs).alerts, Stuck(ta, sought)) <==>
            AnyCounted(b.alerts, Stuck(ta, sought)) || HiddenBySome(cs, ta, sought)
    decreases |cs|
  {
    if cs != [] {
      var n := |cs| - 1;
      var c, before := cs[n], RaiseAll(b, cs[..n]);
      CountedAfterScanIff(b, cs[..n], ta, sought);
      CountedAfterRaise(before, c, Stuck(ta, sought));
      PlannedCountedIff(c, ta, sought);
      HiddenByOneMore(cs, ta, sought);
      if StuckOf(c.key, ta) && Hides(c.key.task, sought) {
        ScanKeepsPlanned(b, cs[..n], ta);
        PlannedBoardCountsIff(before, ta, c.key.task);
        PlannedBoardCountsIff(before, ta, sought);
        assert c.key == Stuck(ta, c.key.task);
      }
    }
  }

  /**
    A stuck planned task ends the scan with an open alert of its own exactly when it had one before, or when it is not
    boarding with deboarding alerted already: by an alert still open, or earlier in this scan.
  */
  lemma StuckTaskHasOwnAlertIff(b: Board, cs: seq<Candidate>, ta: Id, k: nat)
    requires PlannedFor(b, ta) && PlannedScan(cs, ta) && k < |cs| && StuckOf(cs[k].key, ta)
    requires forall j :: 0 <= j < k ==> cs[j].key != cs[k].key
    ensures |RaiseAll(b, cs).keys| == |RaiseAll(b, cs).alerts|
    ensures HasOwn(RaiseAll(b, cs), cs[k].key) <==>
            || HasOwn(b, cs[k].key)
            || !(cs[k].key.task == "boarding" &&
                 (HasOwn(b, Stuck(ta, "deboarding")) || exists j :: 0 <= j < k && cs[j].key == Stuck(ta, "deboarding")))
  {
    var task := cs[k].key.task;
    assert ForPlanned(cs[k]) && cs[k].key == Stuck(ta, task);
    OwnAlertIff(b, cs, k);
    CountedAfterScanIff(b, cs[..k], ta, task);
    PlannedBoardCountsIff(b, ta, task);
    assert HiddenBySome(cs[..k], ta, task) <==>
      task == "boarding" && exists j :: 0 <= j < k && cs[j].key == Stuck(ta, "deboarding") by {
      assert forall j :: 0 <= j < k ==> cs[..k][j] == cs[j];
      assert forall j :: 0 <= j < k && StuckOf(cs[j].key, ta) ==> cs[j].key == Stuck(ta, cs[j].key.task);
    }
  }

  // ---------- Over every history ----------

  /** The history scans planned tasks of the turnaround only, and nobody but the scans posts stuck alerts of it. */
  ghost predicate PlannedStep(step: Step, ta: Id) {
    match step
    case Scan(cs) => PlannedScan(cs, ta)
    case Post(alert) => !(alert.alertType == TaskStuck && alert.subject == ta)
    case Close(_) => true
  }

  lemma StepKeepsPlanned(b: Board, step: Step, b': Board, ta: Id)
    requires PlannedFor(b, ta) && Next(b, step, b') && PlannedStep(step, ta)
    ensures PlannedFor(b', ta)
  {
    match step
    case Scan(cs) => ScanKeepsPlanned(b, cs, ta);
    case Post(alert) =>
      assert PlannedRow(alert, None, ta);
    case Close(i) =>
      assert PlannedRow(b.alerts[i], b.keys[i], ta);
  }

  lemma PlannedAlways(states: seq<Board>, steps: seq<Step>, n: nat, ta: Id)
    requires Execution(Next, states, steps) && n <= |steps| && PlannedFor(states[0], ta)
    requires forall j :: 0 <= j < n ==> PlannedStep(steps[j], ta)
    ensures PlannedFor(states[n], ta)
  {
    forall j | 0 <= j < n && PlannedFor(states[j], ta) && Next(states[j], steps[j], states[j + 1])
      ensures PlannedFor(states[j + 1], ta)
    {
      StepKeepsPlanned(states[j], steps[j], states[j + 1], ta);
    }
    HoldsAlways(Next, b => PlannedFor(b, ta), states, steps, n);
  }

  /**
    Whatever was scanned, posted and closed before: once a scan has found a planned task stuck, the task has an open
    alert of its own, or it is boarding and deboarding of the same turnaround has one.
  */
  lemma StuckPlannedTaskIsShown(states: seq<Board>, steps: seq<Step>, n: nat, ta: Id, k: nat)
    requires Execution(Next, states, steps) && n < |steps| && PlannedFor(states[0], ta)
    requires forall j :: 0 <= j <= n ==> PlannedStep(steps[j], ta)
    requires steps[n].Scan? && k < |steps[n].candidates| && StuckOf(steps[n].candidates[k].key, ta)
    ensures |states[n + 1].keys| == |states[n + 1].alerts|
    ensures var key := steps[n].candidates[k].key;
            HasOwn(states[n + 1], key) || (key.task == "boarding" && HasOwn(states[n + 1], Stuck(ta, "deboarding")))
  {
    var cs := steps[n].candidates;
    assert Next(states[n], steps[n], states[n + 1]) && PlannedStep(steps[n], ta);
    assert ForPlanned(cs[k]) && cs[k].key == Stuck(ta, cs[k].key.task);
    PlannedAlways(states, steps, n + 1, ta);
    ScanCovers(states[n], cs, k);
    PlannedBoardCountsIff(states[n + 1], ta, cs[k].key.task);
  }

  // ---------- The scan makes such candidates ----------

  ghost predicate PlannedTasks(tasks: seq<AS.TaskInfo>) {
    forall j :: 0 <= j < |tasks| ==> tasks[j].name.Some? && tasks[j].name.value in TEMPLATE_NAMES
  }

  /** Durations that are not negative are written in digits. */
  ghost predicate WritesDigits(text: real -> string) {
    forall x :: x >= 0.0 ==> Digits(text(x))
  }

  lemma StuckCandidateIsForPlanned(ta: AS.TurnaroundInfo, task: AS.TaskInfo, now: int, text: real -> string)
    requires AS.IsStuck(task, now) && WritesDigits(text) && task.name.Some? && task.name.value in TEMPLATE_NAMES
    ensures ForPlanned(AS.StuckCandidate(ta, task, now, text))
  {
    var estimated := AS.OrElse(task.estimatedMinutes, 0.0);
    var elapsed := AS.WholeMinutes(now - task.startedAt.value) as real;
    assert elapsed >= 0.0 && estimated >= 0.0;
    assert Digits(text(elapsed)) && Digits(text(estimated));
  }

  /** Scanning turnarounds that hold planned tasks only raises candidates of that kind only. */
  lemma CandidatesAreForPlanned(turnarounds: seq<AS.TurnaroundInfo>, now: int, text: real -> string, ta: Id)
    requires WritesDigits(text)
    requires forall t :: t in turnarounds && AS.TurnaroundId(t) == ta ==> PlannedTasks(AS.Tasks(t))
    ensures PlannedScan(AS.StuckCandidates(turnarounds, now, text), ta)
  {
    var cs := AS.StuckCandidates(turnarounds, now, text);
    forall j | 0 <= j < |cs| && StuckOf(cs[j].key, ta) ensures ForPlanned(cs[j]) {
      AS.StuckCandidatesMeaning(turnarounds, now, text, cs[j]);
      var t :| t in turnarounds && AS.StuckAmong(t, AS.Tasks(t), now, text, cs[j]);
      var task :| task in AS.Tasks(t) && AS.IsStuck(task, now) && cs[j] == AS.StuckCandidate(t, task, now, text);
      StuckCandidateIsForPlanned(t, task, now, text);
    }
  }

  /**
    Every alert of such a scan is found again by its own query, so planned tasks are de-duplicated in every history.
  */
  lemma PlannedScanIsScannable(turnarounds: seq<AS.TurnaroundInfo>, now: int, text: real -> string)
    requires forall t :: t in turnarounds ==> PlannedTasks(AS.Tasks(t))
    ensures Scannable(AS.StuckCandidates(turnarounds, now, text))
  {
    forall t, task | t in turnarounds && task in AS.Tasks(t) ensures EscapeFree(AS.StuckKey(t, task)) {
      NamesAreLiteral(task.name.value);
    }
    AS.StuckScanIsScannable(turnarounds, now, text);
  }
}
