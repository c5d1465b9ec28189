/** The alerts table of the ops hub and the de-duplication of the scheduler's alerts. */
module Alerts {
  import opened Wrappers
  import opened LikePattern
  import opened Transitions

  type Id = string

  datatype AlertType = TurnaroundDelayed | TaskStuck | CrewShortage | GateConflict

  /** `subject` is turnaround_id, or flight_id for a crew shortage. */
  datatype Alert = Alert(alertType: AlertType, subject: Id, description: string, open: bool)

  /** What a scheduler alert is about. */
  datatype Key = Delay(ta: Id) | Stuck(ta: Id, task: string) | Shortage(flight: Id, certification: string)

  /** The table, and beside each row the key a scan raised it for; rows from elsewhere have none. */
  datatype Board = Board(alerts: seq<Alert>, keys: seq<Option<Key>>)

  // ---------- The counting query and the insertion ----------

  function TypeOf(key: Key): AlertType {
    match key
    case Delay(_) => TurnaroundDelayed
    case Stuck(_, _) => TaskStuck
    case Shortage(_, _) => CrewShortage
  }

  function SubjectOf(key: Key): Id {
    match key
    case Delay(ta) => ta
    case Stuck(ta, _) => ta
    case Shortage(flight, _) => flight
  }

  /** The word the query looks for in the description; a delay is looked up by turnaround alone. */
  function WordOf(key: Key): Option<string> {
    match key
    case Delay(_) => None
    case Stuck(_, task) => Some(task)
    case Shortage(_, certification) => Some(certification)
  }

  /** The WHERE clause of the three counting queries. */
  predicate Counted(a: Alert, key: Key) {
    && a.alertType == TypeOf(key) && a.subject == SubjectOf(key) && a.open
    && (WordOf(key).Some? ==> Like(a.description, Around(WordOf(key).value)))
  }

  predicate AnyCounted(alerts: seq<Alert>, key: Key) {
    exists i :: 0 <= i < |alerts| && Counted(alerts[i], key)
  }

  /** The alert is one this key's scan inserts: same type and subject, and the word inside the description. */
  ghost predicate Describes(a: Alert, key: Key) {
    && a.alertType == TypeOf(key) && a.subject == SubjectOf(key)
    && (WordOf(key).Some? ==> exists prefix, suffix :: a.description == prefix + WordOf(key).value + suffix)
  }

  predicate EscapeFree(key: Key) {
    WordOf(key).Some? ==> NoEscape(WordOf(key).value)
  }

  function StuckDescription(task: string, elapsed: string, estimated: string): string {
    "Task " + task + " running " + elapsed + "min (estimated " + estimated + "min)"
  }

  const BEFORE_CERTIFICATION: string := "No available crew with "
  const AFTER_CERTIFICATION: string := " certification for upcoming arrival"

  function ShortageDescription(certification: string): string {
    BEFORE_CERTIFICATION + certification + AFTER_CERTIFICATION
  }

  /** What a scan would insert, and for which key. */
  datatype Candidate = Candidate(key: Key, description: string)

  function AlertOf(c: Candidate): Alert {
    Alert(TypeOf(c.key), SubjectOf(c.key), c.description, true)
  }

  /** Insert unless an open alert is counted. */
  function Raise(b: Board, c: Candidate): Board {
    if AnyCounted(b.alerts, c.key) then b else Board(b.alerts + [AlertOf(c)], b.keys + [Some(c.key)])
  }

  function RaiseAll(b: Board, cs: seq<Candidate>): Board {
    if cs == [] then b else Raise(RaiseAll(b, cs[..|cs| - 1]), cs[|cs| - 1])
  }

  /** An open alert of this type and subject whose text matches the pattern. */
  ghost predicate Listed(alerts: seq<Alert>, alertType: AlertType, subject: Id, pattern: string) {
    exists i :: 0 <= i < |alerts| && alerts[i].open && alerts[i].alertType == alertType && alerts[i].subject == subject
                && Like(alerts[i].description, pattern)
  }

  /**
    The scheduler inserts an open alert of the candidate's type and subject, unless there is one already: for a delay of
    any text, for a stuck task and a shortage one whose text matches the name between two "%".
  */
  lemma RaiseMeaning(b: Board, c: Candidate)
    ensures Raise(b, c) == match c.key
            case Delay(ta) =>
              if Listed(b.alerts, TurnaroundDelayed, ta, "%") then b
              else Board(b.alerts + [Alert(TurnaroundDelayed, ta, c.description, true)], b.keys + [Some(c.key)])
            case Stuck(ta, task) =>
              if Listed(b.alerts, TaskStuck, ta, "%" + task + "%") then b
              else Board(b.alerts + [Alert(TaskStuck, ta, c.description, true)], b.keys + [Some(c.key)])
            case Shortage(flight, certification) =>
              if Listed(b.alerts, CrewShortage, flight, "%" + certification + "%") then b
              else Board(b.alerts + [Alert(CrewShortage, flight, c.description, true)], b.keys + [Some(c.key)])
  {
    if c.key.Delay? {
      forall i | 0 <= i < |b.alerts| ensures Like(b.alerts[i].description, "%") {
        PercentMatchesAll(b.alerts[i].description);
      }
    }
    assert AnyCounted(b.alerts, c.key) <==>
      Listed(b.alerts, TypeOf(c.key), SubjectOf(c.key), if c.key.Delay? then "%" else Around(WordOf(c.key).value));
  }

  // ---------- At most one open alert per key, over every history ----------

  ghost predicate OnePerKey(b: Board) {
    && |b.keys| == |b.alerts|
    && (forall i :: 0 <= i < |b.alerts| && b.keys[i].Some? ==> Recognised(b.alerts[i], b.keys[i].value))
    && (forall i, j :: 0 <= i < j < |b.alerts| && b.keys[i].Some? && b.keys[i] == b.keys[j] ==>
        !b.alerts[i].open || !b.alerts[j].open)
  }

  /** The key's own query finds the alert while it is open. */
  predicate Recognised(a: Alert, key: Key) {
    Counted(a.(open := true), key)
  }

  /** Without a backslash in the word, every alert a scan inserts is recognised, whatever the rest of its text. */
  lemma EscapeFreeIsRecognised(a: Alert, key: Key)
    requires Describes(a, key) && EscapeFree(key)
    ensures Recognised(a, key)
  {
    if WordOf(key).Some? {
      var word := WordOf(key).value;
      var prefix, suffix :| a.description == prefix + word + suffix;
      ContainedWordMatches(prefix, word, suffix);
    }
  }

  /** Scanning the same candidate twice inserts one alert exactly when the first one is recognised. */
  lemma SecondScanAddsNothingIff(b: Board, c: Candidate)
    requires !AnyCounted(b.alerts, c.key)
    ensures Raise(Raise(b, c), c) == Raise(b, c) <==> Recognised(AlertOf(c), c.key)
  {
    var after := Raise(b, c);
    assert after.alerts[|b.alerts|] == AlertOf(c);
    assert forall i :: 0 <= i < |b.alerts| ==> after.alerts[i] == b.alerts[i];
    if !AnyCounted(after.alerts, c.key) {
      assert |Raise(after, c).alerts| == |after.alerts| + 1;
    }
  }

  /**
    Exactly when a stuck alert is recognised: some part of its text matches the task's name, read as a pattern. For a
    name without "%" this says: no dangling backslash, and somewhere in the text stands what the name asks for, its
    backslashes dropped and its "_" filled by anything.
  */
  lemma StuckAlertRecognisedIff(ta: Id, task: string, elapsed: string, estimated: string)
    ensures var d := StuckDescription(task, elapsed, estimated);
            var own := Recognised(Alert(TaskStuck, ta, d, true), Stuck(ta, task));
            && (own <==> PartMatches(d, task))
            && (NoPercent(task) ==> (own <==> !Dangling(task) && FitsSomewhere(d, Tokens(task))))
  {
    var d := StuckDescription(task, elapsed, estimated);
    assert d[|d| - 1] == ')';
    AroundMeansPart(d, task);
    if NoPercent(task) {
      PatternMeansFit(d, task);
    }
  }

  /** The scheduler's scans, alerts posted by others, and alerts leaving "open". */
  datatype Step = Scan(candidates: seq<Candidate>) | Post(alert: Alert) | Close(i: nat)

  ghost predicate Scannable(cs: seq<Candidate>) {
    forall k :: 0 <= k < |cs| ==> Recognised(AlertOf(cs[k]), cs[k].key)
  }

  ghost predicate Next(b: Board, step: Step, b': Board) {
    match step
    case Scan(cs) => Scannable(cs) && b' == RaiseAll(b, cs)
    case Post(alert) => b' == Board(b.alerts + [alert], b.keys + [None])
    case Close(i) => i < |b.alerts| && b' == b.(alerts := b.alerts[i := b.alerts[i].(open := false)])
  }

  lemma RaiseKeepsOnePerKey(b: Board, c: Candidate)
    requires OnePerKey(b) && Recognised(AlertOf(c), c.key)
    ensures OnePerKey(Raise(b, c))
  {
  }

  lemma {:induction false} ScanKeepsOnePerKey(b: Board, cs: seq<Candidate>)
    requires OnePerKey(b) && Scannable(cs)
    ensures OnePerKey(RaiseAll(b, cs))
  {
    if cs != [] {
      ScanKeepsOnePerKey(b, cs[..|cs| - 1]);
      RaiseKeepsOnePerKey(RaiseAll(b, cs[..|cs| - 1]), cs[|cs| - 1]);
    }
  }

  /** Over every history of scans, posts and closings no key has two open scheduler alerts. */
  lemma {:induction false} AlertsAreDeduplicated(states: seq<Board>, steps: seq<Step>, k: nat)
    requires Execution(Next, states, steps) && OnePerKey(states[0]) && k <= |steps|
    ensures OnePerKey(states[k])
  {
    if k > 0 {
      AlertsAreDeduplicated(states, steps, k - 1);
      assert Next(states[k - 1], steps[k - 1], states[k]);
      if steps[k - 1].Scan? {
        ScanKeepsOnePerKey(states[k - 1], steps[k - 1].candidates);
      }
    }
  }

  // ---------- Coverage ----------

  lemma {:induction false} RaiseAllAppends(b: Board, cs: seq<Candidate>)
    ensures b.alerts <= RaiseAll(b, cs).alerts
  {
    if cs != [] {
      RaiseAllAppends(b, cs[..|cs| - 1]);
    }
  }

  /** After a scan every candidate is matched by an open alert. */
  lemma {:induction false} ScanCovers(b: Board, cs: seq<Candidate>, k: nat)
    requires k < |cs| && Recognised(AlertOf(cs[k]), cs[k].key)
    ensures AnyCounted(RaiseAll(b, cs).alerts, cs[k].key)
    decreases |cs|
  {
    var n := |cs| - 1;
    var before := RaiseAll(b, cs[..n]);
    if k < n {
      ScanCovers(b, cs[..n], k);
      var i :| 0 <= i < |before.alerts| && Counted(before.alerts[i], cs[k].key);
      assert RaiseAll(b, cs).alerts[i] == before.alerts[i];
    } else if !AnyCounted(before.alerts, cs[k].key) {
      assert RaiseAll(b, cs).alerts[|before.alerts|] == AlertOf(cs[k]);
    }
  }

  // ---------- An alert of one's own ----------

  /** The key itself, and not only some alert its query counts, has an open alert. */
  ghost predicate HasOwn(b: Board, key: Key)
    requires |b.keys| == |b.alerts|
  {
    exists i :: 0 <= i < |b.alerts| && b.alerts[i].open && b.keys[i] == Some(key)
  }

  lemma {:induction false} RaiseAllKeepsSizes(b: Board, cs: seq<Candidate>)
    requires |b.keys| == |b.alerts|
    ensures |RaiseAll(b, cs).keys| == |RaiseAll(b, cs).alerts|
  {
    if cs != [] {
      RaiseAllKeepsSizes(b, cs[..|cs| - 1]);
    }
  }

  /** One candidate gives its key an alert of its own exactly when nothing was counted for it. */
  lemma RaiseOwnIff(b: Board, c: Candidate, key: Key)
    requires |b.keys| == |b.alerts|
    ensures HasOwn(Raise(b, c), key) <==> HasOwn(b, key) || (c.key == key && !AnyCounted(b.alerts, key))
    ensures AnyCounted(b.alerts, key) ==> AnyCounted(Raise(b, c).alerts, key)
  {
    var after := Raise(b, c);
    assert forall i :: 0 <= i < |b.alerts| ==> after.alerts[i] == b.alerts[i] && after.keys[i] == b.keys[i];
    if !AnyCounted(b.alerts, c.key) {
      assert after.alerts[|b.alerts|].open && after.keys[|b.alerts|] == Some(c.key);
    }
  }

  /**
    A key that is scanned ends the scan with an open alert of its own exactly when it had one before, or when nothing
    was counted for it at the moment its first candidate came up.
  */
  lemma {:induction false} OwnAlertIff(b: Board, cs: seq<Candidate>, k: nat)
    requires |b.keys| == |b.alerts| && k < |cs| && forall j :: 0 <= j < k ==> cs[j].key != cs[k].key
    ensures |RaiseAll(b, cs).keys| == |RaiseAll(b, cs).alerts|
    ensures HasOwn(RaiseAll(b, cs), cs[k].key) <==>
            HasOwn(b, cs[k].key) || !AnyCounted(RaiseAll(b, cs[..k]).alerts, cs[k].key)
    ensures HasOwn(RaiseAll(b, cs), cs[k].key) || AnyCounted(RaiseAll(b, cs).alerts, cs[k].key)
    decreases |cs|
  {
    var n := |cs| - 1;
    var before := RaiseAll(b, cs[..n]);
    RaiseAllKeepsSizes(b, cs);
    RaiseAllKeepsSizes(b, cs[..n]);
    RaiseOwnIff(before, cs[n], cs[k].key);
    if k < n {
      OwnAlertIff(b, cs[..n], k);
      assert cs[..n][..k] == cs[..k];
    } else {
      UnscannedKeepsOwn(b, cs[..n], cs[k].key);
    }
  }

  lemma {:induction false} UnscannedKeepsOwn(b: Board, cs: seq<Candidate>, key: Key)
    requires |b.keys| == |b.alerts| && forall j :: 0 <= j < |cs| ==> cs[j].key != key
    ensures |RaiseAll(b, cs).keys| == |RaiseAll(b, cs).alerts|
    ensures HasOwn(RaiseAll(b, cs), key) <==> HasOwn(b, key)
  {
    if cs != [] {
      UnscannedKeepsOwn(b, cs[..|cs| - 1], key);
      RaiseOwnIff(RaiseAll(b, cs[..|cs| - 1]), cs[|cs| - 1], key);
    }
  }

  // ---------- Where LIKE is too generous, where it is exact, and where it fails ----------

  /** A stuck boarding task gets no alert while deboarding of the same turnaround has one. */
  lemma BoardingHiddenByDeboarding(b: Board, ta: Id, elapsed: string, estimated: string, description: string)
    ensures var deboarding := Alert(TaskStuck, ta, StuckDescription("deboarding", elapsed, estimated), true);
            var board := Board(b.alerts + [deboarding], b.keys + [Some(Stuck(ta, "deboarding"))]);
            Raise(board, Candidate(Stuck(ta, "boarding"), description)) == board
  {
    var deboarding := Alert(TaskStuck, ta, StuckDescription("deboarding", elapsed, estimated), true);
    var suffix := " running " + elapsed + "min (estimated " + estimated + "min)";
    ContainedWordMatches("Task de", "boarding", suffix);
    assert "Task " + "deboarding" == "Task de" + "boarding";
    assert deboarding.description == "Task de" + "boarding" + suffix;
    assert (b.alerts + [deboarding])[|b.alerts|] == deboarding;
  }

  /** A task named by a single backslash is alerted again on every scan. */
  lemma BackslashDefeatsDeduplication(ta: Id, elapsed: string, estimated: string)
    ensures var c := Candidate(Stuck(ta, [ESCAPE]), StuckDescription([ESCAPE], elapsed, estimated));
            var once := Board([AlertOf(c)], [Some(c.key)]);
            Raise(once, c) == Board([AlertOf(c), AlertOf(c)], [Some(c.key), Some(c.key)])
  {
    var d := StuckDescription([ESCAPE], elapsed, estimated);
    var c := Candidate(Stuck(ta, [ESCAPE]), d);
    assert Dangling([ESCAPE]);
    StuckAlertRecognisedIff(ta, [ESCAPE], elapsed, estimated);
    assert AlertOf(c) == Alert(TaskStuck, ta, d, true);
  }

  const CRITICAL_CERTIFICATIONS: seq<string> := ["fueling", "cargo", "catering"]

  predicate Critical(certification: string) {
    certification in CRITICAL_CERTIFICATIONS
  }

  /**
    For the three critical certifications the pattern is exact: a shortage alert is counted for its own certification
    only.
  */
  lemma ShortagePatternIsExact(flight: Id, own: string, other: string)
    requires Critical(own) && Critical(other)
    ensures Counted(AlertOf(Candidate(Shortage(flight, own), ShortageDescription(own))), Shortage(flight, other)) <==>
            own == other
  {
    if own == other {
      ContainedWordMatches(BEFORE_CERTIFICATION, own, AFTER_CERTIFICATION);
    } else {
      NoForeignWord(own, other);
      CriticalIsLiteral(other);
      NoForeignMatch(ShortageDescription(own), other);
    }
  }

  lemma CriticalIsLiteral(certification: string)
    requires Critical(certification)
    ensures NoPercent(certification) && '_' !in certification && NoEscape(certification)
  {
  }

  lemma NoForeignMatch(text: string, word: string)
    requires NoPercent(word) && !FitsSomewhere(text, Tokens(word)) && text != [] && text[|text| - 1] != '%'
    ensures !Like(text, Around(word))
  {
    PatternMeansFit(text, word);
  }

  /** The first character is never followed by the second. */
  ghost predicate NoPair(s: string, c: char, d: char) {
    forall i :: 0 <= i < |s| - 1 && s[i] == c ==> s[i + 1] != d
  }

  lemma NoPairInConcat(s: string, t: string, c: char, d: char)
    requires NoPair(s, c, d) && NoPair(t, c, d)
    requires s != [] && t != [] ==> s[|s| - 1] != c || t[0] != d
    ensures NoPair(s + t, c, d)
  {
  }

  lemma FixedTextHasNoPair(c: char, d: char)
    requires (c, d) in {('f', 'u'), ('r', 'g'), ('t', 'e')}
    ensures NoPair(BEFORE_CERTIFICATION, c, d) && NoPair(AFTER_CERTIFICATION, c, d)
  {
    BeforeHasNoPair(c, d);
    AfterHasNoPair(c, d);
  }

  lemma BeforeHasNoPair(c: char, d: char)
    requires (c, d) in {('f', 'u'), ('r', 'g'), ('t', 'e')}
    ensures NoPair(BEFORE_CERTIFICATION, c, d)
  {
    var b := BEFORE_CERTIFICATION;
    forall i | 0 <= i < |b| - 1 && b[i] == c ensures b[i + 1] != d {
      assert i + 1 < 23;
    }
  }

  lemma AfterHasNoPair(c: char, d: char)
    requires (c, d) in {('f', 'u'), ('r', 'g'), ('t', 'e')}
    ensures NoPair(AFTER_CERTIFICATION, c, d)
  {
    var a := AFTER_CERTIFICATION;
    forall i | 0 <= i < |a| - 1 && a[i] == c ensures a[i + 1] != d {
      assert i + 1 < 34;
    }
  }

  /** Each critical certification holds a pair of letters that no other one and no fixed part of the text holds. */
  lemma TellingPair(own: string, other: string) returns (c: char, d: char, at: nat)
    requires Critical(own) && Critical(other) && own != other
    ensures (c, d) in {('f', 'u'), ('r', 'g'), ('t', 'e')}
    ensures at + 1 < |other| && other[at] == c && other[at + 1] == d && NoPair(own, c, d)
    ensures own != [] && own[|own| - 1] != c && own[0] != d
  {
    if other == "fueling" {
      c, d, at := 'f', 'u', 0;
    } else if other == "cargo" {
      c, d, at := 'r', 'g', 2;
    } else {
      c, d, at := 't', 'e', 2;
    }
  }

  lemma FittingPair(s: string, word: string, at: nat)
    requires NoEscape(word) && '_' !in word && FitsSomewhere(s, Tokens(word)) && at + 1 < |word|
    ensures !NoPair(s, word[at], word[at + 1])
  {
    PlainTokens(word);
    var k: nat :| Fits(s, k, Tokens(word));
    assert s[k + at] == word[at] && s[k + at + 1] == word[at + 1];
  }

  lemma NoForeignWord(own: string, other: string)
    requires Critical(own) && Critical(other) && own != other
    ensures !FitsSomewhere(ShortageDescription(own), Tokens(other))
  {
    var text := ShortageDescription(own);
    var c, d, at := TellingPair(own, other);
    FixedTextHasNoPair(c, d);
    NoPairInConcat(BEFORE_CERTIFICATION, own, c, d);
    NoPairInConcat(BEFORE_CERTIFICATION + own, AFTER_CERTIFICATION, c, d);
    assert text == BEFORE_CERTIFICATION + own + AFTER_CERTIFICATION;
    if FitsSomewhere(text, Tokens(other)) {
      CriticalIsLiteral(other);
      FittingPair(text, other, at);
    }
  }
}
