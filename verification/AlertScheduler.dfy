/** The three scheduler scans, over the responses they fetched. */
module AlertScheduler {
  import opened Wrappers
  import opened Alerts
  import opened Rounding

  /**
    Fields of the JSON responses; None is an absent field, and for times also one that does not parse. Times are
    seconds.
  */
  datatype TaskInfo = TaskInfo(name: Option<string>, status: Option<string>, estimatedMinutes: Option<real>,
                               startedAt: Option<int>)
  datatype TurnaroundInfo = TurnaroundInfo(id: Option<Id>, progress: Option<real>, startedAt: Option<int>,
                                           tasks: Option<seq<TaskInfo>>)
  datatype FlightInfo = FlightInfo(id: Option<Id>)

  function OrElse<T>(o: Option<T>, default: T): T {
    if o.Some? then o.value else default
  }

  /** `num_minutes`: whole minutes, towards zero. */
  function WholeMinutes(seconds: int): int {
    if seconds >= 0 then seconds / 60 else -(-seconds / 60)
  }

  function Tasks(ta: TurnaroundInfo): seq<TaskInfo> {
    OrElse(ta.tasks, [])
  }

  /** The sum of the estimates that are present. */
  function TotalEstimate(tasks: seq<TaskInfo>): real {
    if tasks == [] then 0.0 else TotalEstimate(tasks[..|tasks| - 1]) + OrElse(tasks[|tasks| - 1].estimatedMinutes, 0.0)
  }

  /** Less than half done with more than three quarters of the estimated time gone. */
  predicate IsDelayed(ta: TurnaroundInfo, now: int) {
    var total := TotalEstimate(Tasks(ta));
    && total > 0.0 && ta.startedAt.Some?
    && OrElse(ta.progress, 0.0) < 50.0
    && WholeMinutes(now - ta.startedAt.value) as real / total > 0.75
  }

  /** In progress for more than one and a half times the estimate. */
  predicate IsStuck(t: TaskInfo, now: int) {
    && t.status == Some("in_progress") && t.startedAt.Some?
    && OrElse(t.estimatedMinutes, 0.0) > 0.0
    && WholeMinutes(now - t.startedAt.value) as real > OrElse(t.estimatedMinutes, 0.0) * 1.5
  }

  function TurnaroundId(ta: TurnaroundInfo): Id {
    OrElse(ta.id, "unknown")
  }

  function StuckKey(ta: TurnaroundInfo, t: TaskInfo): Key {
    Stuck(TurnaroundId(ta), OrElse(t.name, "unknown"))
  }

  // ---------- What a scan alerts, in order ----------

  function DelayCandidates(turnarounds: seq<TurnaroundInfo>, now: int,
                           describe: TurnaroundInfo -> string): seq<Candidate>
  {
    if turnarounds == [] then []
    else
      var n := |turnarounds| - 1;
      var earlier, ta := DelayCandidates(turnarounds[..n], now, describe), turnarounds[n];
      if IsDelayed(ta, now) then earlier + [Candidate(Delay(TurnaroundId(ta)), describe(ta))] else earlier
  }

  function StuckCandidate(ta: TurnaroundInfo, t: TaskInfo, now: int, text: real -> string): Candidate
    requires t.startedAt.Some?
  {
    Candidate(StuckKey(ta, t),
              StuckDescription(OrElse(t.name, "unknown"), text(WholeMinutes(now - t.startedAt.value) as real),
                               text(OrElse(t.estimatedMinutes, 0.0))))
  }

  function StuckCandidatesOf(ta: TurnaroundInfo, tasks: seq<TaskInfo>, now: int, text: real -> string): seq<Candidate> {
    if tasks == [] then []
    else
      var n := |tasks| - 1;
      var earlier := StuckCandidatesOf(ta, tasks[..n], now, text);
      if IsStuck(tasks[n], now) then earlier + [StuckCandidate(ta, tasks[n], now, text)] else earlier
  }

  function StuckCandidates(turnarounds: seq<TurnaroundInfo>, now: int, text: real -> string): seq<Candidate> {
    if turnarounds == [] then []
    else
      var n := |turnarounds| - 1;
      StuckCandidates(turnarounds[..n], now, text) + StuckCandidatesOf(turnarounds[n], Tasks(turnarounds[n]), now, text)
  }

  function ShortageCandidate(f: FlightInfo, cert: string): Candidate {
    Candidate(Shortage(OrElse(f.id, "unknown"), cert), ShortageDescription(cert))
  }

  /** `answers[n]` is how many crew members the request for the n-th certification returned. */
  function ShortageCandidatesOf(f: FlightInfo, certs: seq<string>, answers: seq<nat>): seq<Candidate>
    requires |answers| == |certs|
  {
    if certs == [] then []
    else
      var n := |certs| - 1;
      var earlier := ShortageCandidatesOf(f, certs[..n], answers[..n]);
      if answers[n] == 0 then earlier + [ShortageCandidate(f, certs[n])] else earlier
  }

  /** One answer for every request a scan makes: for each flight, one per critical certification. */
  predicate Answered(flights: seq<FlightInfo>, answers: seq<seq<nat>>) {
    |answers| == |flights| && forall n :: 0 <= n < |answers| ==> |answers[n]| == |CRITICAL_CERTIFICATIONS|
  }

  function ShortageCandidates(flights: seq<FlightInfo>, answers: seq<seq<nat>>): seq<Candidate>
    requires Answered(flights, answers)
  {
    if flights == [] then []
    else
      var n := |flights| - 1;
      ShortageCandidates(flights[..n], answers[..n]) +
      ShortageCandidatesOf(flights[n], CRITICAL_CERTIFICATIONS, answers[n])
  }

  // ---------- The scans ----------

  class AlertScheduler {
    var alerts: seq<Alert>
    ghost var keys: seq<Option<Key>>

    ghost function Table(): Board
      reads this
    {
      Board(alerts, keys)
    }

    constructor ()
      ensures Table() == Board([], [])
    {
      alerts, keys := [], [];
    }

    /** Count the open alerts for the key; insert when there are none. */
    method RaiseOnce(key: Key, description: string)
      modifies this
      ensures Table() == Raise(old(Table()), Candidate(key, description))
    {
      var existing := 0;
      for i := 0 to |alerts|
        invariant existing == 0 <==> forall j :: 0 <= j < i ==> !Counted(alerts[j], key)
        invariant 0 <= existing
      {
        if Counted(alerts[i], key) {
          existing := existing + 1;
        }
      }
      if existing == 0 {
        alerts := alerts + [AlertOf(Candidate(key, description))];
        keys := keys + [Some(key)];
      }
    }

    method CheckTurnaroundDelays(turnarounds: seq<TurnaroundInfo>, now: int, describe: TurnaroundInfo -> string)
      modifies this
      ensures Table() == RaiseAll(old(Table()), DelayCandidates(turnarounds, now, describe))
    {
      for i := 0 to |turnarounds|
        invariant Table() == RaiseAll(old(Table()), DelayCandidates(turnarounds[..i], now, describe))
      {
        var ta := turnarounds[i];
        assert turnarounds[..i + 1][..i] == turnarounds[..i];
        var progress := OrElse(ta.progress, 0.0);
        var total := TotalEstimate(Tasks(ta));
        if total <= 0.0 || ta.startedAt == None {
          continue;
        }
        var elapsedRatio := WholeMinutes(now - ta.startedAt.value) as real / total;
        if progress < 50.0 && elapsedRatio > 0.75 {
          OneMoreCandidate(old(Table()), DelayCandidates(turnarounds[..i], now, describe),
                           Candidate(Delay(TurnaroundId(ta)), describe(ta)));
          RaiseOnce(Delay(TurnaroundId(ta)), describe(ta));
        }
      }
      assert turnarounds[..|turnarounds|] == turnarounds;
    }

    /** The inner loop, over the tasks of one turnaround. */
    method CheckStuckTasksOf(ta: TurnaroundInfo, now: int, text: real -> string)
      modifies this
      ensures Table() == RaiseAll(old(Table()), StuckCandidatesOf(ta, Tasks(ta), now, text))
    {
      var tasks := Tasks(ta);
      for i := 0 to |tasks|
        invariant Table() == RaiseAll(old(Table()), StuckCandidatesOf(ta, tasks[..i], now, text))
      {
        var task := tasks[i];
        OneMoreTask(ta, tasks, i, now, text);
        if task.status != Some("in_progress") || task.startedAt == None {
          continue;
        }
        var estimated := OrElse(task.estimatedMinutes, 0.0);
        var elapsed := WholeMinutes(now - task.startedAt.value) as real;
        if elapsed > estimated * 1.5 && estimated > 0.0 {
          var name := OrElse(task.name, "unknown");
          var description := StuckDescription(name, text(elapsed), text(estimated));
          assert IsStuck(task, now) &&
                 Candidate(Stuck(TurnaroundId(ta), name), description) == StuckCandidate(ta, task, now, text);
          OneMoreCandidate(old(Table()), StuckCandidatesOf(ta, tasks[..i], now, text),
                           StuckCandidate(ta, task, now, text));
          RaiseOnce(Stuck(TurnaroundId(ta), name), description);
        }
      }
      assert tasks[..|tasks|] == tasks;
    }

    method CheckStuckTasks(turnarounds: seq<TurnaroundInfo>, now: int, text: real -> string)
      modifies this
      ensures Table() == RaiseAll(old(Table()), StuckCandidates(turnarounds, now, text))
    {
      for i := 0 to |turnarounds|
        invariant Table() == RaiseAll(old(Table()), StuckCandidates(turnarounds[..i], now, text))
      {
        assert turnarounds[..i + 1][..i] == turnarounds[..i];
        RaiseAllInTwoParts(old(Table()), StuckCandidates(turnarounds[..i], now, text),
                           StuckCandidatesOf(turnarounds[i], Tasks(turnarounds[i]), now, text));
        CheckStuckTasksOf(turnarounds[i], now, text);
      }
      assert turnarounds[..|turnarounds|] == turnarounds;
    }

    /** The inner loop, over the critical certifications. */
    method CheckCrewShortageOf(flight: FlightInfo, answers: seq<nat>)
      requires |answers| == |CRITICAL_CERTIFICATIONS|
      modifies this
      ensures Table() == RaiseAll(old(Table()), ShortageCandidatesOf(flight, CRITICAL_CERTIFICATIONS, answers))
    {
      var criticalCerts := CRITICAL_CERTIFICATIONS;
      for j := 0 to |criticalCerts|
        invariant Table() == RaiseAll(old(Table()), ShortageCandidatesOf(flight, criticalCerts[..j], answers[..j]))
      {
        var cert := criticalCerts[j];
        assert criticalCerts[..j + 1][..j] == criticalCerts[..j] && answers[..j + 1][..j] == answers[..j];
        if answers[j] == 0 {
          OneMoreCandidate(old(Table()), ShortageCandidatesOf(flight, criticalCerts[..j], answers[..j]),
                           ShortageCandidate(flight, cert));
          RaiseOnce(Shortage(OrElse(flight.id, "unknown"), cert), ShortageDescription(cert));
        }
      }
      assert criticalCerts[..|criticalCerts|] == CRITICAL_CERTIFICATIONS && answers[..|criticalCerts|] == answers;
    }

    /**
      Crew availability is asked for afresh for every flight and certification, and each request may be answered
      differently.
    */
    method CheckCrewShortage(flights: seq<FlightInfo>, answers: seq<seq<nat>>)
      requires Answered(flights, answers)
      modifies this
      ensures Table() == RaiseAll(old(Table()), ShortageCandidates(flights, answers))
    {
      for i := 0 to |flights|
        invariant Table() == RaiseAll(old(Table()), ShortageCandidates(flights[..i], answers[..i]))
      {
        assert flights[..i + 1][..i] == flights[..i] && answers[..i + 1][..i] == answers[..i];
        RaiseAllInTwoParts(old(Table()), ShortageCandidates(flights[..i], answers[..i]),
                           ShortageCandidatesOf(flights[i], CRITICAL_CERTIFICATIONS, answers[i]));
        CheckCrewShortageOf(flights[i], answers[i]);
      }
      assert flights[..|flights|] == flights && answers[..|flights|] == answers;
    }
  }

  lemma OneMoreTask(ta: TurnaroundInfo, tasks: seq<TaskInfo>, i: nat, now: int, text: real -> string)
    requires i < |tasks|
    ensures StuckCandidatesOf(ta, tasks[..i + 1], now, text) ==
            if IsStuck(tasks[i], now)
            then StuckCandidatesOf(ta, tasks[..i], now, text) + [StuckCandidate(ta, tasks[i], now, text)]
            else StuckCandidatesOf(ta, tasks[..i], now, text)
  {
    assert tasks[..i + 1][..i] == tasks[..i];
  }

  lemma OneMoreCandidate(b: Board, cs: seq<Candidate>, c: Candidate)
    ensures RaiseAll(b, cs + [c]) == Raise(RaiseAll(b, cs), c)
  {
    assert (cs + [c])[..|cs|] == cs;
  }

  lemma {:induction false} RaiseAllInTwoParts(b: Board, first: seq<Candidate>, second: seq<Candidate>)
    ensures RaiseAll(b, first + second) == RaiseAll(RaiseAll(b, first), second)
  {
    if second == [] {
      assert first + second == first;
    } else {
      var n := |second| - 1;
      RaiseAllInTwoParts(b, first, second[..n]);
      var both := first + second;
      assert both[..|both| - 1] == first + second[..n] && both[|both| - 1] == second[n];
    }
  }

  // ---------- What the thresholds mean ----------

  /** Whole minutes: what is left over is less than a minute, and the sign is that of the seconds. */
  lemma WholeMinutesMeaning(seconds: int, m: int)
    ensures WholeMinutes(seconds) == m <==>
            if seconds >= 0 then 60 * m <= seconds < 60 * m + 60 else 60 * m - 60 < seconds <= 60 * m
  {
  }

  lemma TotalEstimateOfOne(t: TaskInfo)
    ensures TotalEstimate([t]) == if t.estimatedMinutes.Some? then t.estimatedMinutes.value else 0.0
  {
    assert [t][..0] == [];
  }

  lemma {:induction false} TotalEstimateAdds(front: seq<TaskInfo>, back: seq<TaskInfo>)
    ensures TotalEstimate(front + back) == TotalEstimate(front) + TotalEstimate(back)
  {
    if back == [] {
      assert front + back == front;
    } else {
      var n, all := |back| - 1, front + back;
      TotalEstimateAdds(front, back[..n]);
      assert all[..|all| - 1] == front + back[..n] && all[|all| - 1] == back[n];
    }
  }

  /**
    More than three quarters of the estimated minutes are over, in whole minutes, at less than half of the progress.
  */
  ghost predicate DelayedAfter(ta: TurnaroundInfo, now: int, m: nat) {
    && ta.startedAt.Some? && 60 * m <= now - ta.startedAt.value < 60 * m + 60
    && (ta.progress.Some? ==> ta.progress.value < 50.0)
    && ta.tasks.Some? && 0.0 < 3.0 * TotalEstimate(ta.tasks.value) < 4.0 * m as real
  }

  lemma DelayMeaning(ta: TurnaroundInfo, now: int)
    ensures IsDelayed(ta, now) <==> exists m: nat :: DelayedAfter(ta, now, m)
  {
    var total := TotalEstimate(Tasks(ta));
    if ta.startedAt.Some? && total > 0.0 {
      var m := WholeMinutes(now - ta.startedAt.value);
      RatioExceeds(m as real, total);
      WholeMinutesMeaning(now - ta.startedAt.value, m);
      if IsDelayed(ta, now) {
        assert m > 0 && DelayedAfter(ta, now, m);
      }
      if n: nat :| DelayedAfter(ta, now, n) {
        WholeMinutesMeaning(now - ta.startedAt.value, n);
      }
    }
  }

  lemma RatioExceeds(x: real, y: real)
    requires y > 0.0
    ensures x / y > 0.75 <==> 4.0 * x > 3.0 * y
  {
    var q := x / y;
    assert q * y == x;
    if q > 0.75 {
      ScaleStrict(0.75, q, y);
    } else {
      ScaleInequality(q, 0.75, y);
    }
  }

  /** In progress for so many whole minutes, more than one and a half times a positive estimate. */
  ghost predicate StuckAfter(t: TaskInfo, now: int, m: nat) {
    && t.status == Some("in_progress") && t.startedAt.Some? && 60 * m <= now - t.startedAt.value < 60 * m + 60
    && t.estimatedMinutes.Some? && 0.0 < 3.0 * t.estimatedMinutes.value < 2.0 * m as real
  }

  lemma StuckMeaning(t: TaskInfo, now: int)
    ensures IsStuck(t, now) <==> exists m: nat :: StuckAfter(t, now, m)
    ensures forall m: nat :: StuckAfter(t, now, m) ==> WholeMinutes(now - t.startedAt.value) == m
  {
    if t.startedAt.Some? {
      var m := WholeMinutes(now - t.startedAt.value);
      WholeMinutesMeaning(now - t.startedAt.value, m);
      if IsStuck(t, now) {
        assert m > 0 && StuckAfter(t, now, m);
      }
      forall n: nat | StuckAfter(t, now, n) ensures n == m {
        WholeMinutesMeaning(now - t.startedAt.value, n);
      }
    }
  }

  // ---------- What the scans raise ----------

  /** The delay scan looks for alerts of exactly the delayed turnarounds. */
  lemma DelayScanMeaning(turnarounds: seq<TurnaroundInfo>, now: int, describe: TurnaroundInfo -> string, c: Candidate)
    ensures c in DelayCandidates(turnarounds, now, describe) <==>
            exists ta, m: nat :: ta in turnarounds && DelayedAfter(ta, now, m) &&
              c == Candidate(Delay(if ta.id.Some? then ta.id.value else "unknown"), describe(ta))
  {
    DelayCandidatesMeaning(turnarounds, now, describe, c);
    forall ta | ta in turnarounds ensures IsDelayed(ta, now) <==> exists m: nat :: DelayedAfter(ta, now, m) {
      DelayMeaning(ta, now);
    }
  }

  /** What the stuck scan writes about a task that has run for m whole minutes. */
  ghost predicate Describes(c: Candidate, ta: TurnaroundInfo, t: TaskInfo, m: nat, text: real -> string) {
    var name := if t.name.Some? then t.name.value else "unknown";
    && c.key == Stuck(if ta.id.Some? then ta.id.value else "unknown", name)
    && t.estimatedMinutes.Some?
    && c.description == "Task " + name + " running " + text(m as real) + "min (estimated "
                        + text(t.estimatedMinutes.value) + "min)"
  }

  /** The stuck scan looks for alerts of exactly the stuck tasks, each of its own turnaround. */
  lemma StuckScanMeaning(turnarounds: seq<TurnaroundInfo>, now: int, text: real -> string, c: Candidate)
    ensures c in StuckCandidates(turnarounds, now, text) <==>
            exists ta, t, m: nat :: ta in turnarounds && ta.tasks.Some? && t in ta.tasks.value &&
              StuckAfter(t, now, m) && Describes(c, ta, t, m, text)
  {
    StuckCandidatesMeaning(turnarounds, now, text, c);
    if c in StuckCandidates(turnarounds, now, text) {
      var ta :| ta in turnarounds && StuckAmong(ta, Tasks(ta), now, text, c);
      var t :| t in Tasks(ta) && IsStuck(t, now) && c == StuckCandidate(ta, t, now, text);
      StuckMeaning(t, now);
      var m: nat :| StuckAfter(t, now, m);
      assert Describes(c, ta, t, m, text);
    }
    if ta, t, m: nat :| ta in turnarounds && ta.tasks.Some? && t in ta.tasks.value && StuckAfter(t, now, m) &&
                        Describes(c, ta, t, m, text) {
      StuckMeaning(t, now);
      assert c == StuckCandidate(ta, t, now, text);
      assert StuckAmong(ta, Tasks(ta), now, text, c);
    }
  }

  /** The shortage scan looks for one alert for each of the three certifications that nobody was available for. */
  lemma ShortageScanMeaning(flights: seq<FlightInfo>, answers: seq<seq<nat>>, c: Candidate)
    requires Answered(flights, answers)
    ensures c in ShortageCandidates(flights, answers) <==>
            exists m, n :: 0 <= m < |flights| && 0 <= n < 3 && answers[m][n] == 0 &&
              var cert := if n == 0 then "fueling" else if n == 1 then "cargo" else "catering";
              && c.key == Shortage(if flights[m].id.Some? then flights[m].id.value else "unknown", cert)
              && c.description == "No available crew with " + cert + " certification for upcoming arrival"
  {
    ShortageCandidatesMeaning(flights, answers, c);
    forall m, n | 0 <= m < |flights| && 0 <= n < 3
      ensures var cert := if n == 0 then "fueling" else if n == 1 then "cargo" else "catering";
              CRITICAL_CERTIFICATIONS[n] == cert &&
              (c == ShortageCandidate(flights[m], CRITICAL_CERTIFICATIONS[n]) <==>
               && c.key == Shortage(if flights[m].id.Some? then flights[m].id.value else "unknown", cert)
               && c.description == "No available crew with " + cert + " certification for upcoming arrival")
    {
    }
  }

  // ---------- Which alerts those are, and that their queries find them again ----------

  /** Exactly the delayed turnarounds, and no scan of them ever duplicates. */
  lemma {:induction false} DelayCandidatesMeaning(turnarounds: seq<TurnaroundInfo>, now: int,
                                                  describe: TurnaroundInfo -> string, c: Candidate)
    ensures c in DelayCandidates(turnarounds, now, describe) <==>
            exists ta ::
              ta in turnarounds && IsDelayed(ta, now) && c == Candidate(Delay(TurnaroundId(ta)), describe(ta))
    ensures Scannable(DelayCandidates(turnarounds, now, describe))
  {
    if turnarounds != [] {
      var n := |turnarounds| - 1;
      DelayCandidatesMeaning(turnarounds[..n], now, describe, c);
      assert turnarounds == turnarounds[..n] + [turnarounds[n]];
    }
  }

  /** The candidate belongs to one of these tasks, which is stuck. */
  ghost predicate StuckAmong(ta: TurnaroundInfo, tasks: seq<TaskInfo>, now: int, text: real -> string, c: Candidate) {
    exists t :: t in tasks && IsStuck(t, now) && c == StuckCandidate(ta, t, now, text)
  }

  lemma {:induction false} StuckCandidatesOfMeaning(ta: TurnaroundInfo, tasks: seq<TaskInfo>, now: int,
                                                    text: real -> string, c: Candidate)
    ensures c in StuckCandidatesOf(ta, tasks, now, text) <==> StuckAmong(ta, tasks, now, text, c)
  {
    if tasks != [] {
      var n := |tasks| - 1;
      StuckCandidatesOfMeaning(ta, tasks[..n], now, text, c);
      assert tasks == tasks[..n] + [tasks[n]];
    }
  }

  /** Exactly the stuck tasks of all turnarounds. */
  lemma {:induction false} StuckCandidatesMeaning(turnarounds: seq<TurnaroundInfo>, now: int, text: real -> string,
                                                  c: Candidate)
    ensures c in StuckCandidates(turnarounds, now, text) <==>
            exists ta :: ta in turnarounds && StuckAmong(ta, Tasks(ta), now, text, c)
  {
    if turnarounds != [] {
      var n := |turnarounds| - 1;
      StuckCandidatesMeaning(turnarounds[..n], now, text, c);
      StuckCandidatesOfMeaning(turnarounds[n], Tasks(turnarounds[n]), now, text, c);
      assert turnarounds == turnarounds[..n] + [turnarounds[n]];
    }
  }

  /** After a scan every stuck task whose alert its own query recognises is matched by an open alert. */
  lemma StuckTasksAreCovered(b: Board, turnarounds: seq<TurnaroundInfo>, now: int, text: real -> string,
                             ta: TurnaroundInfo, t: TaskInfo)
    requires ta in turnarounds && t in Tasks(ta) && IsStuck(t, now)
    requires Recognised(AlertOf(StuckCandidate(ta, t, now, text)), StuckKey(ta, t))
    ensures AnyCounted(RaiseAll(b, StuckCandidates(turnarounds, now, text)).alerts, StuckKey(ta, t))
  {
    var c, cs := StuckCandidate(ta, t, now, text), StuckCandidates(turnarounds, now, text);
    assert StuckAmong(ta, Tasks(ta), now, text, c);
    StuckCandidatesMeaning(turnarounds, now, text, c);
    var k :| 0 <= k < |cs| && cs[k] == c;
    ScanCovers(b, cs, k);
  }

  /** A stuck alert names its task, so without a backslash in the name the counting query finds it again. */
  lemma StuckCandidateRecognised(ta: TurnaroundInfo, t: TaskInfo, now: int, text: real -> string)
    requires t.startedAt.Some? && EscapeFree(StuckKey(ta, t))
    ensures Recognised(AlertOf(StuckCandidate(ta, t, now, text)), StuckKey(ta, t))
  {
    var c := StuckCandidate(ta, t, now, text);
    var e, x := text(WholeMinutes(now - t.startedAt.value) as real), text(OrElse(t.estimatedMinutes, 0.0));
    var suffix := " running " + e + "min (estimated " + x + "min)";
    assert c.description == "Task " + OrElse(t.name, "unknown") + suffix;
    EscapeFreeIsRecognised(AlertOf(c), c.key);
  }

  /** Without backslashes in task names no scan for stuck tasks ever duplicates. */
  lemma StuckScanIsScannable(turnarounds: seq<TurnaroundInfo>, now: int, text: real -> string)
    requires forall ta, t :: ta in turnarounds && t in Tasks(ta) ==> EscapeFree(StuckKey(ta, t))
    ensures Scannable(StuckCandidates(turnarounds, now, text))
  {
    var cs := StuckCandidates(turnarounds, now, text);
    forall k | 0 <= k < |cs| ensures Recognised(AlertOf(cs[k]), cs[k].key) {
      StuckCandidatesMeaning(turnarounds, now, text, cs[k]);
      var ta :| ta in turnarounds && StuckAmong(ta, Tasks(ta), now, text, cs[k]);
      var t :| t in Tasks(ta) && IsStuck(t, now) && cs[k] == StuckCandidate(ta, t, now, text);
      StuckCandidateRecognised(ta, t, now, text);
    }
  }

  lemma ShortageCandidateRecognised(f: FlightInfo, cert: string)
    requires Critical(cert)
    ensures Recognised(AlertOf(ShortageCandidate(f, cert)), ShortageCandidate(f, cert).key)
  {
    CriticalIsLiteral(cert);
    EscapeFreeIsRecognised(AlertOf(ShortageCandidate(f, cert)), ShortageCandidate(f, cert).key);
  }

  lemma {:induction false} ShortageCandidatesOfMeaning(f: FlightInfo, certs: seq<string>, answers: seq<nat>,
                                                       c: Candidate)
    requires |answers| == |certs|
    ensures c in ShortageCandidatesOf(f, certs, answers) <==>
            exists n :: 0 <= n < |certs| && answers[n] == 0 && c == ShortageCandidate(f, certs[n])
  {
    if certs != [] {
      var n := |certs| - 1;
      ShortageCandidatesOfMeaning(f, certs[..n], answers[..n], c);
      assert forall k :: 0 <= k < n ==> certs[..n][k] == certs[k] && answers[..n][k] == answers[k];
    }
  }

  lemma {:induction false} ShortageScanOfIsScannable(f: FlightInfo, certs: seq<string>, answers: seq<nat>)
    requires |answers| == |certs| && forall n :: 0 <= n < |certs| ==> Critical(certs[n])
    ensures Scannable(ShortageCandidatesOf(f, certs, answers))
  {
    if certs != [] {
      var n := |certs| - 1;
      ShortageScanOfIsScannable(f, certs[..n], answers[..n]);
      ShortageCandidateRecognised(f, certs[n]);
    }
  }

  /** The candidate belongs to a request for this flight that found nobody. */
  ghost predicate ShortFor(f: FlightInfo, answers: seq<nat>, c: Candidate)
    requires |answers| == |CRITICAL_CERTIFICATIONS|
  {
    exists n :: 0 <= n < |answers| && answers[n] == 0 && c == ShortageCandidate(f, CRITICAL_CERTIFICATIONS[n])
  }

  /** Exactly the requests that found nobody, and no scan of them ever duplicates. */
  lemma {:induction false} ShortageCandidatesMeaning(flights: seq<FlightInfo>, answers: seq<seq<nat>>, c: Candidate)
    requires Answered(flights, answers)
    ensures c in ShortageCandidates(flights, answers) <==>
            exists m :: 0 <= m < |flights| && ShortFor(flights[m], answers[m], c)
    ensures Scannable(ShortageCandidates(flights, answers))
  {
    if flights != [] {
      var n := |flights| - 1;
      ShortageCandidatesMeaning(flights[..n], answers[..n], c);
      ShortageCandidatesOfMeaning(flights[n], CRITICAL_CERTIFICATIONS, answers[n], c);
      ShortageScanOfIsScannable(flights[n], CRITICAL_CERTIFICATIONS, answers[n]);
      assert forall m :: 0 <= m < n ==>
        (ShortFor(flights[..n][m], answers[..n][m], c) <==> ShortFor(flights[m], answers[m], c));
    }
  }
}
