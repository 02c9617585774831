/** Whole calls as runs of the transition system, from any state, and what two writes of one process and key can do. */
module StoreRuns {
  import opened CacheEntry
  import opened JsonText
  import opened StorePaths
  import opened StoreRecords
  import opened StoreProtocol
  import opened AnchoredTextStore

  lemma {:induction false} RunAppend(s: State, a: seq<Step>, b: seq<Step>)
    requires IsRun(s, a) && IsRun(After(s, a), b)
    ensures IsRun(s, a + b) && After(s, a + b) == After(After(s, a), b)
    decreases |a|
  {
    if a == [] {
      assert a + b == b;
    } else {
      assert (a + b)[1..] == a[1..] + b;
      RunAppend(Apply(s, a[0]), a[1..], b);
    }
  }

  lemma OneStep(s: State, step: Step)
    requires Enabled(s, step)
    ensures IsRun(s, [step]) && After(s, [step]) == Apply(s, step)
  {
    assert [step][1..] == [];
    assert IsRun(Apply(s, step), []);
  }

  lemma StepThen(s: State, step: Step, steps: seq<Step>)
    requires Enabled(s, step) && IsRun(Apply(s, step), steps)
    ensures IsRun(s, [step] + steps) && After(s, [step] + steps) == After(Apply(s, step), steps)
  {
    OneStep(s, step);
    RunAppend(s, [step], steps);
  }

  // ----- A write -----

  /** What one call of `write` is about. */
  datatype WriteCall = WriteCall(pid: string, key: string, stamp: string, outcome: Outcome) {
    predicate Legal() {
      IsPid(pid) && ValidKey(key) && WellTyped(outcome)
    }

    function Entry(): Record {
      Current(stamp, outcome)
    }

    function Text(): Text {
      TextOf(Entry())
    }

    function TempPath(): Path {
      Temp(key, pid)
    }
  }

  /** The state with this call on its way, in a phase, over these files. */
  function At(s: State, id: nat, c: WriteCall, phase: Phase, files: Files): State {
    State(files, s.writers[id := InFlight(c.pid, c.key, c.Entry(), phase)], s.listings, s.handed + {(c.key, c.Entry())})
  }

  /** The state after this call has returned, over these files. */
  function Done(s: State, c: WriteCall, files: Files): State {
    State(files, s.writers, s.listings, s.handed + {(c.key, c.Entry())})
  }

  lemma LeaveIsDone(s: State, id: nat, c: WriteCall, phase: Phase, files: Files, files': Files)
    requires id !in s.writers
    ensures Leave(At(s, id, c, phase, files), id).(files := files') == Done(s, c, files')
  {
    assert s.writers[id := InFlight(c.pid, c.key, c.Entry(), phase)] - {id} == s.writers;
  }

  lemma AdvanceAt(s: State, id: nat, c: WriteCall, phase: Phase, files: Files, phase': Phase)
    ensures Advance(At(s, id, c, phase, files), id, phase') == At(s, id, c, phase', files)
  {}

  function BeginOf(id: nat, c: WriteCall): Step {
    Begin(id, c.pid, c.key, c.stamp, c.outcome)
  }

  /** Up to the empty temporary file. */
  function Opens(id: nat, c: WriteCall): seq<Step> {
    [BeginOf(id, c)] + ([Made(id, true)] + [Created(id, true)])
  }

  lemma OpensCreates(s: State, id: nat, c: WriteCall)
    requires c.Legal() && id !in s.writers
    ensures IsRun(s, Opens(id, c))
    ensures After(s, Opens(id, c)) == At(s, id, c, Appending(0), s.files[c.TempPath() := []])
  {
    var s1, s2 := At(s, id, c, Making, s.files), At(s, id, c, Creating, s.files);
    assert Apply(s, BeginOf(id, c)) == s1;
    AdvanceAt(s, id, c, Making, s.files, Creating);
    AdvanceAt(s, id, c, Creating, s.files, Appending(0));
    OneStep(s2, Created(id, true));
    StepThen(s1, Made(id, true), [Created(id, true)]);
    StepThen(s, BeginOf(id, c), [Made(id, true)] + [Created(id, true)]);
  }

  lemma AppendsPrefix(s: State, id: nat, c: WriteCall, files: Files, upTo: nat)
    requires upTo <= |c.Text()| && c.TempPath() in files && files[c.TempPath()] == []
    ensures Enabled(At(s, id, c, Appending(0), files), Appended(id, upTo, true))
    ensures Apply(At(s, id, c, Appending(0), files), Appended(id, upTo, true))
         == At(s, id, c, Appending(upTo), files[c.TempPath() := c.Text()[..upTo]])
  {
    assert [] + c.Text()[0..upTo] == c.Text()[..upTo];
    AdvanceAt(s, id, c, Appending(0), files, Appending(upTo));
  }

  /** From the empty temporary file to the full one, ready for the rename. */
  function Fills(id: nat, c: WriteCall): seq<Step> {
    [Appended(id, |c.Text()|, true)] + [Closed(id)]
  }

  lemma FillsWrites(s: State, id: nat, c: WriteCall, files: Files)
    requires c.TempPath() in files && files[c.TempPath()] == []
    ensures IsRun(At(s, id, c, Appending(0), files), Fills(id, c))
    ensures After(At(s, id, c, Appending(0), files), Fills(id, c))
         == At(s, id, c, Renaming, files[c.TempPath() := c.Text()])
  {
    var n, full := |c.Text()|, files[c.TempPath() := c.Text()];
    AppendsPrefix(s, id, c, files, n);
    assert c.Text()[..n] == c.Text();
    AdvanceAt(s, id, c, Appending(n), full, Renaming);
    OneStep(At(s, id, c, Appending(n), full), Closed(id));
    StepThen(At(s, id, c, Appending(0), files), Appended(id, n, true), [Closed(id)]);
  }

  lemma WritesAndCloses(s: State, id: nat, c: WriteCall)
    requires c.Legal() && id !in s.writers
    ensures IsRun(s, Opens(id, c) + Fills(id, c))
    ensures After(s, Opens(id, c) + Fills(id, c)) == At(s, id, c, Renaming, s.files[c.TempPath() := c.Text()])
  {
    var files := s.files[c.TempPath() := []];
    OpensCreates(s, id, c);
    FillsWrites(s, id, c, files);
    RunAppend(s, Opens(id, c), Fills(id, c));
    assert files[c.TempPath() := c.Text()] == s.files[c.TempPath() := c.Text()];
  }

  /** The failing end of a write: a step fails, then the temporary file is removed, or not. */
  lemma FailsAndCleans(s: State, id: nat, c: WriteCall, phase: Phase, files: Files, step: Step, ok: bool)
    requires id !in s.writers && Enabled(At(s, id, c, phase, files), step)
    requires Apply(At(s, id, c, phase, files), step) == At(s, id, c, Cleaning, files)
    ensures IsRun(At(s, id, c, phase, files), [step] + [Cleaned(id, ok)])
    ensures After(At(s, id, c, phase, files), [step] + [Cleaned(id, ok)])
         == Done(s, c, if ok then files - {c.TempPath()} else files)
  {
    LeaveIsDone(s, id, c, Cleaning, files, if ok then files - {c.TempPath()} else files);
    OneStep(At(s, id, c, Cleaning, files), Cleaned(id, ok));
    StepThen(At(s, id, c, phase, files), step, [Cleaned(id, ok)]);
  }

  /** How a whole `write` with this fault goes, step by step. */
  function WriteSteps(id: nat, c: WriteCall, fault: Fault, stuck: bool): seq<Step> {
    match fault
    case NoFault => Opens(id, c) + Fills(id, c) + [Renamed(id, true)]
    case MkdirFails => [BeginOf(id, c)] + ([Made(id, false)] + [Cleaned(id, !stuck)])
    case CreateFails => [BeginOf(id, c)] + ([Made(id, true)] + ([Created(id, false)] + [Cleaned(id, !stuck)]))
    case AppendFails(n) =>
      var upTo := Least(n, |c.Text()|);
      Opens(id, c) + ([Appended(id, upTo, true)] + ([Appended(id, upTo, false)] + [Cleaned(id, !stuck)]))
    case RenameFails => Opens(id, c) + Fills(id, c) + ([Renamed(id, false)] + [Cleaned(id, !stuck)])
  }

  function Least(a: nat, b: nat): nat {
    if a <= b then a else b
  }

  /** The call with this fault, as the steps above, ends where `Written` says. */
  ghost predicate Runs(s: State, id: nat, c: WriteCall, fault: Fault, stuck: bool) {
    && IsRun(s, WriteSteps(id, c, fault, stuck))
    && After(s, WriteSteps(id, c, fault, stuck))
    == Done(s, c, Written(s.files, c.stamp, c.key, c.outcome, c.pid, fault, stuck))
  }

  lemma MkdirFailureRuns(s: State, id: nat, c: WriteCall, stuck: bool)
    requires c.Legal() && id !in s.writers
    ensures Runs(s, id, c, MkdirFails, stuck)
  {
    assert Apply(s, BeginOf(id, c)) == At(s, id, c, Making, s.files);
    AdvanceAt(s, id, c, Making, s.files, Cleaning);
    FailsAndCleans(s, id, c, Making, s.files, Made(id, false), !stuck);
    StepThen(s, BeginOf(id, c), [Made(id, false)] + [Cleaned(id, !stuck)]);
  }

  lemma CreateFailureRuns(s: State, id: nat, c: WriteCall, stuck: bool)
    requires c.Legal() && id !in s.writers
    ensures Runs(s, id, c, CreateFails, stuck)
  {
    assert Apply(s, BeginOf(id, c)) == At(s, id, c, Making, s.files);
    AdvanceAt(s, id, c, Making, s.files, Creating);
    AdvanceAt(s, id, c, Creating, s.files, Cleaning);
    FailsAndCleans(s, id, c, Creating, s.files, Created(id, false), !stuck);
    StepThen(At(s, id, c, Making, s.files), Made(id, true), [Created(id, false)] + [Cleaned(id, !stuck)]);
    StepThen(s, BeginOf(id, c), [Made(id, true)] + ([Created(id, false)] + [Cleaned(id, !stuck)]));
  }

  /** From the empty temporary file on: some of it is written, then writing fails. */
  lemma PartlyWritten(s: State, id: nat, c: WriteCall, files: Files, upTo: nat, ok: bool)
    requires id !in s.writers && upTo <= |c.Text()| && c.TempPath() in files && files[c.TempPath()] == []
    ensures var steps := [Appended(id, upTo, true)] + ([Appended(id, upTo, false)] + [Cleaned(id, ok)]);
      var partly := files[c.TempPath() := c.Text()[..upTo]];
      && IsRun(At(s, id, c, Appending(0), files), steps)
      && After(At(s, id, c, Appending(0), files), steps) == Done(s, c, if ok then partly - {c.TempPath()} else partly)
  {
    var partly := files[c.TempPath() := c.Text()[..upTo]];
    AppendsPrefix(s, id, c, files, upTo);
    AdvanceAt(s, id, c, Appending(upTo), partly, Cleaning);
    FailsAndCleans(s, id, c, Appending(upTo), partly, Appended(id, upTo, false), ok);
    StepThen(At(s, id, c, Appending(0), files), Appended(id, upTo, true),
             [Appended(id, upTo, false)] + [Cleaned(id, ok)]);
  }

  lemma AppendFailureRuns(s: State, id: nat, c: WriteCall, n: nat, stuck: bool)
    requires c.Legal() && id !in s.writers
    ensures Runs(s, id, c, AppendFails(n), stuck)
  {
    var upTo, temp := Least(n, |c.Text()|), c.TempPath();
    OpensCreates(s, id, c);
    PartlyWritten(s, id, c, s.files[temp := []], upTo, !stuck);
    RunAppend(s, Opens(id, c), [Appended(id, upTo, true)] + ([Appended(id, upTo, false)] + [Cleaned(id, !stuck)]));
    FailedWrite(s.files, c.stamp, c.key, c.outcome, c.pid, AppendFails(n), stuck);
    assert c.Text()[..upTo] == if n <= |c.Text()| then c.Text()[..n] else c.Text();
  }

  lemma RenameFailureRuns(s: State, id: nat, c: WriteCall, stuck: bool)
    requires c.Legal() && id !in s.writers
    ensures Runs(s, id, c, RenameFails, stuck)
  {
    var full := s.files[c.TempPath() := c.Text()];
    WritesAndCloses(s, id, c);
    AdvanceAt(s, id, c, Renaming, full, Cleaning);
    FailsAndCleans(s, id, c, Renaming, full, Renamed(id, false), !stuck);
    RunAppend(s, Opens(id, c) + Fills(id, c), [Renamed(id, false)] + [Cleaned(id, !stuck)]);
    TempComesAndGoes(s.files, c.TempPath(), c.Text());
  }

  lemma RenamesInto(s: State, id: nat, c: WriteCall)
    requires id !in s.writers
    ensures var full := At(s, id, c, Renaming, s.files[c.TempPath() := c.Text()]);
      && Enabled(full, Renamed(id, true))
      && Apply(full, Renamed(id, true)) == Done(s, c, (s.files - {c.TempPath()})[Target(c.key) := c.Text()])
  {
    var full := s.files[c.TempPath() := c.Text()];
    TempComesAndGoes(s.files, c.TempPath(), c.Text());
    LeaveIsDone(s, id, c, Renaming, full, Move(full, c.TempPath(), Target(c.key)));
  }

  lemma SuccessRuns(s: State, id: nat, c: WriteCall, stuck: bool)
    requires c.Legal() && id !in s.writers
    ensures Runs(s, id, c, NoFault, stuck)
  {
    WritesAndCloses(s, id, c);
    RenamesInto(s, id, c);
    OneStep(At(s, id, c, Renaming, s.files[c.TempPath() := c.Text()]), Renamed(id, true));
    RunAppend(s, Opens(id, c) + Fills(id, c), [Renamed(id, true)]);
  }

  /**
   * Whatever else is on its way and whatever fails, the steps of one call of `write` in a row are a run of the
   * protocol that ends in the files the call leaves, with every other writer and every listing as it was.
   */
  lemma WriteIsARun(s: State, id: nat, c: WriteCall, fault: Fault, stuck: bool)
    requires c.Legal() && id !in s.writers
    ensures IsRun(s, WriteSteps(id, c, fault, stuck))
    ensures After(s, WriteSteps(id, c, fault, stuck))
         == Done(s, c, Written(s.files, c.stamp, c.key, c.outcome, c.pid, fault, stuck))
  {
    match fault
    case NoFault => SuccessRuns(s, id, c, stuck);
    case MkdirFails => MkdirFailureRuns(s, id, c, stuck);
    case CreateFails => CreateFailureRuns(s, id, c, stuck);
    case AppendFails(n) => AppendFailureRuns(s, id, c, n, stuck);
    case RenameFails => RenameFailureRuns(s, id, c, stuck);
  }

  // ----- One process, one key, two writes -----

  /** The second write opens the temporary file between the first one's close and rename. */
  function Overlap(i: nat, a: WriteCall, j: nat, b: WriteCall): seq<Step> {
    (Opens(i, a) + Fills(i, a)) + (Opens(j, b) + [Renamed(i, true)])
  }

  lemma SecondOpenEmpties(s: State, i: nat, a: WriteCall, j: nat, b: WriteCall)
    requires b.Legal() && i !in s.writers && j !in s.writers && i != j
    requires a.pid == b.pid && a.key == b.key
    ensures var ready := At(s, i, a, Renaming, s.files[a.TempPath() := a.Text()]);
      && IsRun(ready, Opens(j, b) + [Renamed(i, true)])
      && After(ready, Opens(j, b) + [Renamed(i, true)]).files == (s.files - {a.TempPath()})[Target(a.key) := []]
  {
    var ready := At(s, i, a, Renaming, s.files[a.TempPath() := a.Text()]);
    OpensCreates(ready, j, b);
    var empty := ready.files[a.TempPath() := []];
    TempComesAndGoes(s.files, a.TempPath(), a.Text());
    TempComesAndGoes(ready.files, a.TempPath(), []);
    OneStep(At(ready, j, b, Appending(0), empty), Renamed(i, true));
    RunAppend(ready, Opens(j, b), [Renamed(i, true)]);
  }

  /**
   * Without exclusiveness the guarantee is lost: from any state, any two overlapping writes of one process and
   * key have a run that installs an empty entry, from which nothing is read.
   */
  lemma SharedTempTearsTheTarget(s: State, i: nat, a: WriteCall, j: nat, b: WriteCall)
    requires a.Legal() && b.Legal() && i !in s.writers && j !in s.writers && i != j
    requires a.pid == b.pid && a.key == b.key
    ensures IsRun(s, Overlap(i, a, j, b))
    ensures var torn := After(s, Overlap(i, a, j, b));
      && torn.files == (s.files - {a.TempPath()})[Target(a.key) := []]
      && !Inv(torn) && !Hit(torn.files, a.stamp, a.key)
  {
    WritesAndCloses(s, i, a);
    SecondOpenEmpties(s, i, a, j, b);
    RunAppend(s, Opens(i, a) + Fills(i, a), Opens(j, b) + [Renamed(i, true)]);
    TargetIsListable(a.key);
    EmptyIsNotComplete(After(s, Overlap(i, a, j, b)), Target(a.key));
  }

  lemma EmptyIsNotComplete(s: State, p: Path)
    requires p in s.files && s.files[p] == [] && Listable(p)
    ensures !Complete(s, p)
  {
    forall r: Record
      ensures TextOf(r) != []
    {}
  }

  // ----- A listing -----

  lemma OneNameThenTheRest(files: Files, name: string, names: set<string>)
    requires name in names
    ensures (files - {[name]}) - (set n | n in names - {name} :: [n]) == files - set n | n in names :: [n]
  {
    assert (set n | n in names :: [n]) == {[name]} + set n | n in names - {name} :: [n];
  }

  /** The root sweep of one `list`. */
  lemma {:induction false} SweepsNames(s: State, names: set<string>) returns (steps: seq<Step>)
    requires forall name :: name in names ==> JsonName(name)
    ensures IsRun(s, steps) && After(s, steps) == s.(files := s.files - set name | name in names :: [name])
    decreases |names|
  {
    if names == {} {
      steps := [];
      assert s.files - (set name | name in names :: [name]) == s.files;
    } else {
      var name :| name in names;
      var rest := SweepsNames(Apply(s, SweepRoot(name)), names - {name});
      steps := [SweepRoot(name)] + rest;
      StepThen(s, SweepRoot(name), rest);
      OneNameThenTheRest(s.files, name, names);
    }
  }

  /** The keys taken from these paths. */
  function Taken(files: Files, stamp: string, denied: set<Path>, paths: set<Path>): set<string> {
    set p | p in paths && Accepted(files, stamp, denied, p) :: Base(p[2])
  }

  function Removed(denied: set<Path>, paths: set<Path>): set<Path> {
    set p | p in paths && Reaped(p, denied)
  }

  /** The paths are visited: removed, taken or left, as a whole listing would. */
  ghost predicate AllVisited(s: State, end: State, l: nat, denied: set<Path>, paths: set<Path>)
    requires l in s.listings
  {
    && end.files == s.files - Removed(denied, paths)
    && end.writers == s.writers && end.handed == s.handed
    && l in end.listings && end.listings - {l} == s.listings - {l}
    && end.listings[l].stamp == s.listings[l].stamp && end.listings[l].before == s.listings[l].before
    && end.listings[l].pending == s.listings[l].pending - paths
    && end.listings[l].keys == s.listings[l].keys + Taken(s.files, s.listings[l].stamp, denied, paths)
  }

  function VisitOf(l: nat, p: Path, denied: set<Path>): Step
    requires |p| == 3
  {
    Visit(l, p, p !in denied && Reachable(p, denied))
  }

  lemma OneVisit(s: State, l: nat, denied: set<Path>, p: Path)
    requires l in s.listings && p in s.listings[l].pending && Listable(p)
    ensures AllVisited(s, Apply(s, VisitOf(l, p, denied)), l, denied, {p})
  {
    assert Removed(denied, {p}) == if Reaped(p, denied) then {p} else {};
    assert Taken(s.files, s.listings[l].stamp, denied, {p})
        == if Accepted(s.files, s.listings[l].stamp, denied, p) then {Base(p[2])} else {};
    assert s.files - {} == s.files;
  }

  lemma RemovedBoth(files: Files, denied: set<Path>, a: set<Path>, b: set<Path>)
    ensures (files - Removed(denied, a)) - Removed(denied, b) == files - Removed(denied, a + b)
  {
    assert Removed(denied, a + b) == Removed(denied, a) + Removed(denied, b);
  }

  lemma TakenBoth(files: Files, stamp: string, denied: set<Path>, p: Path, rest: set<Path>)
    requires p !in rest
    ensures Taken(files, stamp, denied, {p}) + Taken(files - Removed(denied, {p}), stamp, denied, rest)
         == Taken(files, stamp, denied, {p} + rest)
  {
    var left := files - Removed(denied, {p});
    forall q | q in rest
      ensures Accepted(left, stamp, denied, q) <==> Accepted(files, stamp, denied, q)
    {
      assert q !in Removed(denied, {p});
    }
    assert Taken(left, stamp, denied, rest) == Taken(files, stamp, denied, rest);
  }

  lemma VisitedBoth(s: State, mid: State, end: State, l: nat, denied: set<Path>, p: Path, rest: set<Path>)
    requires l in s.listings && AllVisited(s, mid, l, denied, {p}) && p !in rest
    requires AllVisited(mid, end, l, denied, rest)
    ensures AllVisited(s, end, l, denied, {p} + rest)
  {
    RemovedBoth(s.files, denied, {p}, rest);
    TakenBoth(s.files, s.listings[l].stamp, denied, p, rest);
  }

  lemma {:induction false} VisitsAll(s: State, l: nat, denied: set<Path>, paths: set<Path>) returns (steps: seq<Step>)
    requires l in s.listings && paths <= s.listings[l].pending && forall p :: p in paths ==> Listable(p)
    ensures IsRun(s, steps) && AllVisited(s, After(s, steps), l, denied, paths)
    decreases |paths|
  {
    if paths == {} {
      steps := [];
      assert s.files - Removed(denied, {}) == s.files;
    } else {
      var p :| p in paths;
      OneVisit(s, l, denied, p);
      var rest := VisitsAll(Apply(s, VisitOf(l, p, denied)), l, denied, paths - {p});
      steps := [VisitOf(l, p, denied)] + rest;
      StepThen(s, VisitOf(l, p, denied), rest);
      VisitedBoth(s, Apply(s, VisitOf(l, p, denied)), After(s, steps), l, denied, p, paths - {p});
      assert {p} + (paths - {p}) == paths;
    }
  }

  /** The root entries a listing removes, by name. */
  function RootNames(files: Files, denied: set<Path>): set<string> {
    set p | p in files && |p| == 1 && Reaped(p, denied) :: p[0]
  }

  function Listables(files: Files): set<Path> {
    set p | p in files && Listable(p)
  }

  lemma RootSweepRemoves(files: Files, denied: set<Path>)
    ensures forall name :: name in RootNames(files, denied) ==> JsonName(name)
    ensures var left := files - (set name | name in RootNames(files, denied) :: [name]);
      && (forall p :: p in left <==> p in files && !(|p| == 1 && Reaped(p, denied)))
      && Listables(left) == Listables(files)
  {
    var roots := set name | name in RootNames(files, denied) :: [name];
    forall p
      ensures p in roots <==> p in files && |p| == 1 && Reaped(p, denied)
    {
      if p in files && |p| == 1 && Reaped(p, denied) {
        assert p[0] in RootNames(files, denied) && p == [p[0]];
      }
      if p in roots {
        var q :| q in files && |q| == 1 && Reaped(q, denied) && [q[0]] == p;
        assert q == p;
      }
    }
  }

  lemma BothSweepsRemove(files: Files, denied: set<Path>)
    ensures var left := files - (set name | name in RootNames(files, denied) :: [name]);
      left - Removed(denied, Listables(left)) == Swept(files, denied, files.Keys)
  {
    RootSweepRemoves(files, denied);
  }

  lemma TakenFromTheRest(files: Files, stamp: string, denied: set<Path>)
    ensures var left := files - (set name | name in RootNames(files, denied) :: [name]);
      Taken(left, stamp, denied, Listables(left)) == Taken(files, stamp, denied, files.Keys)
  {
    RootSweepRemoves(files, denied);
    var left := files - (set name | name in RootNames(files, denied) :: [name]);
    forall p
      ensures p in Listables(left) && Accepted(left, stamp, denied, p)
         <==> p in files && Accepted(files, stamp, denied, p)
    {}
  }

  /**
   * From any state, the steps of a whole `list` in a row are a run of the protocol that ends in the same files and
   * the same keys as the call, with nothing left to visit and everything else as it was.
   */
  lemma ListIsARun(s: State, l: nat, stamp: string, denied: set<Path>) returns (steps: seq<Step>)
    requires l !in s.listings
    ensures IsRun(s, steps)
    ensures var end := After(s, steps);
      && end.files == Swept(s.files, denied, s.files.Keys)
      && end.writers == s.writers && end.handed == s.handed
      && l in end.listings && end.listings - {l} == s.listings
      && end.listings[l].stamp == stamp && end.listings[l].pending == {}
      && end.listings[l].keys == Taken(s.files, stamp, denied, s.files.Keys)
  {
    RootSweepRemoves(s.files, denied);
    var sweeps := SweepsNames(s, RootNames(s.files, denied));
    var swept := After(s, sweeps);
    var started := Apply(swept, StartList(l, stamp));
    var visits := VisitsAll(started, l, denied, Listables(swept.files));
    StepThen(swept, StartList(l, stamp), visits);
    RunAppend(s, sweeps, [StartList(l, stamp)] + visits);
    steps := sweeps + ([StartList(l, stamp)] + visits);
    BothSweepsRemove(s.files, denied);
    TakenFromTheRest(s.files, stamp, denied);
    assert started.listings - {l} == s.listings;
  }

  /** The keys the call returns, as a set. */
  lemma ReturnedKeysAreTaken(files: Files, stamp: string, denied: set<Path>, keys: seq<string>, paths: seq<Path>)
    requires |keys| == |paths|
    requires forall i :: 0 <= i < |keys| ==> Accepted(files, stamp, denied, paths[i]) && keys[i] == Base(paths[i][2])
    requires forall p :: Accepted(files, stamp, denied, p) ==> p in paths
    ensures (set key | key in keys) == Taken(files, stamp, denied, files.Keys)
  {
    forall key | key in Taken(files, stamp, denied, files.Keys)
      ensures key in keys
    {
      var p :| p in files && Accepted(files, stamp, denied, p) && Base(p[2]) == key;
      var i :| 0 <= i < |paths| && paths[i] == p;
      assert keys[i] == key;
    }
    forall key | key in keys
      ensures key in Taken(files, stamp, denied, files.Keys)
    {
      var i :| 0 <= i < |keys| && keys[i] == key;
      assert Accepted(files, stamp, denied, paths[i]);
    }
  }

  /** A listing never returns an interim key, and leaves none readable that it could remove. */
  lemma ListingReapsInterimKeys(files: Files, stamp: string, denied: set<Path>, key: string)
    requires HexName(key, 32)
    ensures key !in Taken(files, stamp, denied, files.Keys)
    ensures Target(key) !in denied && Reachable(Target(key), denied) ==>
      !Hit(Swept(files, denied, files.Keys), stamp, key)
  {
    TargetIsListable(key);
  }
}
