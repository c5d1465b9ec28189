/**
  The migration runner of the flight service. A migration is its file's position in the byte order of the file names,
  which determines its version. A script and the record of its version commit together or not at all.
*/
module Migrations {
  import opened Sorting

  type Version = nat

  /** schema_migrations, and the scripts committed so far in order. */
  datatype Db = Db(recorded: set<Version>, executed: seq<Version>)

  // ---------- sort.Strings ----------

  function Rank(v: Version): int {
    v
  }

  function Sort(files: seq<Version>): seq<Version> {
    StableSort(files, Rank)
  }

  ghost predicate StrictlySorted(s: seq<Version>) {
    forall i, j :: 0 <= i < j < |s| ==> s[i] < s[j]
  }

  ghost predicate Distinct(s: seq<Version>) {
    forall i, j :: 0 <= i < j < |s| ==> s[i] != s[j]
  }

  lemma {:induction false} DistinctCounts(s: seq<Version>, v: Version)
    requires Distinct(s)
    ensures multiset(s)[v] <= 1
  {
    if s != [] {
      DistinctCounts(s[..|s| - 1], v);
      SplitLast(s);
    }
  }

  lemma RepeatCounts(s: seq<Version>, i: nat, j: nat)
    requires i < j < |s| && s[i] == s[j]
    ensures multiset(s)[s[i]] >= 2
  {
    assert s == s[..j] + s[j..];
    assert s[..j][i] == s[i] && s[j..][0] == s[j];
  }

  /** Different files sort into strictly increasing order, and no file is lost or added. */
  lemma SortMeaning(files: seq<Version>)
    requires Distinct(files)
    ensures StrictlySorted(Sort(files))
    ensures forall v :: v in Sort(files) <==> v in files
  {
    var sorted := Sort(files);
    StableSortMeaning(files, Rank, 0);
    forall v ensures v in sorted <==> v in files {
      assert v in multiset(sorted) <==> v in multiset(files);
    }
    forall i, j | 0 <= i < j < |sorted| ensures sorted[i] < sorted[j] {
      assert Rank(sorted[i]) <= Rank(sorted[j]);
      if sorted[i] == sorted[j] {
        RepeatCounts(sorted, i, j);
        DistinctCounts(files, sorted[i]);
      }
    }
  }

  // ---------- The loop ----------

  function ApplyOne(db: Db, v: Version): Db {
    if v in db.recorded then db else Db(db.recorded + {v}, db.executed + [v])
  }

  function ApplyAll(db: Db, versions: seq<Version>): Db {
    if versions == [] then db else ApplyOne(ApplyAll(db, versions[..|versions| - 1]), versions[|versions| - 1])
  }

  ghost predicate ExactlyOnce(db: Db) {
    && Distinct(db.executed)
    && (forall v :: v in db.recorded <==> v in db.executed)
  }

  /** Whatever the files, a recorded version has had its script committed exactly once, and nothing else was. */
  lemma {:induction false} ApplyAllIsExactlyOnce(db: Db, versions: seq<Version>)
    requires ExactlyOnce(db)
    ensures ExactlyOnce(ApplyAll(db, versions))
    ensures forall v :: v in ApplyAll(db, versions).recorded <==> v in db.recorded || v in versions
    ensures db.executed <= ApplyAll(db, versions).executed
  {
    if versions != [] {
      ApplyAllIsExactlyOnce(db, versions[..|versions| - 1]);
      assert versions == versions[..|versions| - 1] + [versions[|versions| - 1]];
    }
  }

  function AsSet(s: seq<Version>): set<Version> {
    set v | v in s
  }

  lemma AppliedIsExactlyOnce(applied: seq<Version>)
    requires StrictlySorted(applied)
    ensures ExactlyOnce(Db(AsSet(applied), applied))
  {
  }

  lemma PrefixRunsInOrder(applied: seq<Version>, all: seq<Version>)
    requires StrictlySorted(all) && applied <= all
    ensures ApplyAll(Db(AsSet(applied), applied), all).executed == all
  {
    var db, n := Db(AsSet(applied), applied), |applied|;
    forall i | 0 <= i < |all| ensures all[i] in db.recorded <==> i < n {
      assert i < n ==> applied[i] == all[i];
    }
    NewSuffix(db, all, n, |all|);
    assert all[..|all|] == all;
    assert applied + all[n..] == all;
  }

  /**
    Files added later are executed in file order overall exactly when they all sort behind the ones already applied.
  */
  lemma AddedFilesRunInOrderIff(applied: seq<Version>, all: seq<Version>)
    requires StrictlySorted(applied) && StrictlySorted(all) && (forall v :: v in applied ==> v in all)
    ensures ApplyAll(Db(AsSet(applied), applied), all).executed == all <==> applied <= all
  {
    if applied <= all {
      PrefixRunsInOrder(applied, all);
    } else {
      AppliedIsExactlyOnce(applied);
      ApplyAllIsExactlyOnce(Db(AsSet(applied), applied), all);
    }
  }

  lemma {:induction false} AlreadyApplied(db: Db, all: seq<Version>, k: nat)
    requires k <= |all| && forall i :: 0 <= i < k ==> all[i] in db.recorded
    ensures ApplyAll(db, all[..k]) == db
  {
    if k > 0 {
      AlreadyApplied(db, all, k - 1);
      assert all[..k][..k - 1] == all[..k - 1];
    }
  }

  lemma {:induction false} NewSuffix(db: Db, all: seq<Version>, n: nat, k: nat)
    requires n <= k <= |all| && StrictlySorted(all)
    requires forall i :: 0 <= i < |all| ==> (all[i] in db.recorded <==> i < n)
    ensures ApplyAll(db, all[..k]).executed == db.executed + all[n..k]
    ensures forall i :: k <= i < |all| ==> all[i] !in ApplyAll(db, all[..k]).recorded
    decreases k
  {
    if k == n {
      AlreadyApplied(db, all, n);
    } else {
      NewSuffix(db, all, n, k - 1);
      assert all[..k][..k - 1] == all[..k - 1];
      assert all[n..k] == all[n..k - 1] + [all[k - 1]];
    }
  }

  // ---------- Runs that stop anywhere, and may overlap ----------

  /** A run before looking at file i, with file i's transaction open, or over. */
  datatype Run = At(i: nat) | Pending(i: nat) | Stopped(ok: bool)

  datatype State = State(db: Db, runs: seq<Run>)

  datatype Action = Start | Step(r: nat) | Crash(r: nat)

  /** Looking up file i, or committing it; the primary key on the version makes a second commit fail. */
  function Stepped(db: Db, files: seq<Version>, run: Run): (Db, Run)
    requires run.Pending? ==> run.i < |files|
  {
    match run
    case At(i) =>
      if i >= |files| then (db, Stopped(true))
      else if files[i] in db.recorded then (db, At(i + 1))
      else (db, Pending(i))
    case Pending(i) =>
      if files[i] in db.recorded then (db, Stopped(false))
      else (ApplyOne(db, files[i]), At(i + 1))
    case Stopped(_) => (db, run)
  }

  ghost predicate Next(files: seq<Version>, s: State, a: Action, s': State) {
    match a
    case Start => s' == s.(runs := s.runs + [At(0)])
    case Step(r) =>
      && r < |s.runs| && (s.runs[r].Pending? ==> s.runs[r].i < |files|)
      && var (db, run) := Stepped(s.db, files, s.runs[r]);
         s' == State(db, s.runs[r := run])
    case Crash(r) => r < |s.runs| && !s.runs[r].Stopped? && s' == s.(runs := s.runs[r := Stopped(false)])
  }

  ghost predicate Execution(files: seq<Version>, states: seq<State>, actions: seq<Action>) {
    && |states| == |actions| + 1
    && forall k :: 0 <= k < |actions| ==> Next(files, states[k], actions[k], states[k + 1])
  }

  /**
    The first m files, and only they, are applied, in order; no run is ahead of that, and a successful one means all.
  */
  ghost predicate AppliedPrefix(files: seq<Version>, s: State, m: nat) {
    && m <= |files|
    && s.db == Db(AsSet(files[..m]), files[..m])
    && (forall r :: 0 <= r < |s.runs| ==>
          match s.runs[r]
          case At(i) => i <= m
          case Pending(i) => i <= m && i < |files|
          case Stopped(ok) => ok ==> m == |files|)
  }

  /** One more file is applied exactly when a pending run goes on; a run that was overtaken fails instead. */
  lemma StepKeepsPrefix(files: seq<Version>, s: State, a: Action, s': State, m: nat) returns (m': nat)
    requires StrictlySorted(files) && AppliedPrefix(files, s, m) && Next(files, s, a, s')
    ensures AppliedPrefix(files, s', m') && m <= m' <= m + 1
    ensures m' == m + 1 <==> a.Step? && s.runs[a.r].Pending? && !s'.runs[a.r].Stopped?
    ensures m' == m + 1 ==> s.runs[a.r] == Pending(m) && s'.runs[a.r] == At(m + 1)
  {
    m' := m;
    if a.Step? {
      var run := s.runs[a.r];
      assert forall i :: 0 <= i < |files| ==> (files[i] in s.db.recorded <==> i < m) by {
        forall i | 0 <= i < |files| ensures files[i] in s.db.recorded <==> i < m {
          if i < m {
            assert files[..m][i] == files[i];
          }
        }
      }
      if run.Pending? && run.i == m {
        m' := m + 1;
        assert files[..m + 1] == files[..m] + [files[m]];
      }
    }
  }

  /**
    Over any number of runs that stop or crash anywhere and may even overlap, the recorded versions are always those of
    a prefix of the sorted files, each script was committed exactly once in file order, and a run that succeeds has
    applied all.
  */
  lemma {:induction false} MigrationsApplyExactlyOnce(files: seq<Version>, states: seq<State>, actions: seq<Action>,
                                                      k: nat) returns (m: nat)
    requires StrictlySorted(files) && Execution(files, states, actions) && k <= |actions|
    requires states[0] == State(Db({}, []), [])
    ensures AppliedPrefix(files, states[k], m)
    ensures ExactlyOnce(states[k].db)
    ensures Stopped(true) in states[k].runs ==> states[k].db.executed == files
  {
    if k == 0 {
      m := 0;
    } else {
      m := MigrationsApplyExactlyOnce(files, states, actions, k - 1);
      m := StepKeepsPrefix(files, states[k - 1], actions[k - 1], states[k], m);
    }
    assert files[..|files|] == files;
  }

  class MigrationRunner {
    var recorded: set<Version>
    ghost var executed: seq<Version>

    ghost function Database(): Db
      reads this
    {
      Db(recorded, executed)
    }

    constructor ()
      ensures Database() == Db({}, [])
    {
      recorded, executed := {}, [];
    }

    /**
      One run over the globbed files; `fails(v)` says that reading or executing v's script fails, which ends the run.
      It succeeds exactly when no pending script fails; otherwise it stops in front of the first pending one that does.
    */
    method RunMigrations(globbed: seq<Version>, fails: Version -> bool) returns (ok: bool, ghost applied: nat)
      requires Distinct(globbed)
      modifies this
      ensures applied <= |Sort(globbed)| && Database() == ApplyAll(old(Database()), Sort(globbed)[..applied])
      ensures forall v :: v in recorded <==> v in old(recorded) || v in Sort(globbed)[..applied]
      ensures forall j :: 0 <= j < applied && Sort(globbed)[j] !in old(recorded) ==> !fails(Sort(globbed)[j])
      ensures ok <==> forall v :: v in globbed && v !in old(recorded) ==> !fails(v)
      ensures ok ==> applied == |Sort(globbed)| && forall v :: v in globbed ==> v in recorded
      ensures !ok ==> applied < |Sort(globbed)| && fails(Sort(globbed)[applied]) && Sort(globbed)[applied] !in recorded
    {
      var files := Sort(globbed);
      SortMeaning(globbed);
      applied := 0;
      for i := 0 to |files|
        invariant applied == i
        invariant Database() == ApplyAll(old(Database()), files[..i])
        invariant forall v :: v in recorded <==> v in old(recorded) || v in files[..i]
        invariant forall j :: 0 <= j < i && files[j] !in old(recorded) ==> !fails(files[j])
      {
        var version := files[i];
        assert files[..i + 1][..i] == files[..i] && files[..i + 1] == files[..i] + [version];
        if version in recorded {
          applied := i + 1;
          continue;
        }
        if fails(version) {
          return false, i;
        }
        recorded := recorded + {version};
        executed := executed + [version];
        applied := i + 1;
      }
      assert files[..|files|] == files;
      ok := true;
    }
  }
}
