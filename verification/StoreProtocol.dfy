/**
 * The store as a transition system: any number of writers in any processes and builds, listings with their
 * sweeps, failures and crashes, all interleaved step by step.
 */
module StoreProtocol {
  import opened Prelude
  import opened JsonText
  import opened CacheEntry
  import opened StorePaths
  import opened StoreRecords

  datatype Phase = Making | Creating | Appending(written: nat) | Renaming | Cleaning

  /** One call of `write` on its way. */
  datatype InFlight = InFlight(pid: string, key: string, record: Record, phase: Phase)

  /** One call of `list` on its way: what was a hit when it began, what it has yet to visit, what it could not open. */
  datatype Listing = Listing(stamp: string, before: set<string>, pending: set<Path>, failed: set<Path>,
                             keys: set<string>)

  /** `handed` remembers every record ever handed to `write`, with its key. */
  datatype State = State(files: Files, writers: map<nat, InFlight>, listings: map<nat, Listing>,
                         handed: set<(string, Record)>)

  /** A step names who moves and how it turns out; `ok == false` is an I/O failure. */
  datatype Step =
    | Begin(id: nat, pid: string, key: string, stamp: string, outcome: Outcome)
    | Made(id: nat, ok: bool)
    | Created(id: nat, ok: bool)
    | Appended(id: nat, upTo: nat, ok: bool)
    | Closed(id: nat)
    | Renamed(id: nat, ok: bool)
    | Cleaned(id: nat, ok: bool)
    | Crash(id: nat)
    | StartList(list: nat, stamp: string)
    | Discover(list: nat, path: Path)
    | Visit(list: nat, path: Path, ok: bool)
    | SweepRoot(name: string)

  function Blob(w: InFlight): Text {
    TextOf(w.record)
  }

  function TempOf(w: InFlight): Path {
    Temp(w.key, w.pid)
  }

  predicate InPhase(s: State, id: nat, phase: Phase) {
    id in s.writers && s.writers[id].phase == phase
  }

  predicate Enabled(s: State, step: Step) {
    match step
    case Begin(id, pid, key, _, outcome) => id !in s.writers && IsPid(pid) && ValidKey(key) && WellTyped(outcome)
    case Made(id, _) => InPhase(s, id, Making)
    case Created(id, _) => InPhase(s, id, Creating)
    case Appended(id, upTo, _) =>
      id in s.writers && s.writers[id].phase.Appending? && s.writers[id].phase.written <= upTo <= |Blob(s.writers[id])|
    case Closed(id) => id in s.writers && InPhase(s, id, Appending(|Blob(s.writers[id])|))
    case Renamed(id, _) => InPhase(s, id, Renaming)
    case Cleaned(id, _) => InPhase(s, id, Cleaning)
    case Crash(id) => id in s.writers
    case StartList(l, _) => l !in s.listings
    case Discover(l, path) => l in s.listings && path in s.files && Listable(path)
    case Visit(l, path, _) => l in s.listings && path in s.listings[l].pending && Listable(path)
    case SweepRoot(name) => JsonName(name)
  }

  function Advance(s: State, id: nat, phase: Phase): State
    requires id in s.writers
  {
    s.(writers := s.writers[id := s.writers[id].(phase := phase)])
  }

  /** The writer returns, or its process dies. */
  function Leave(s: State, id: nat): State {
    s.(writers := s.writers - {id})
  }

  function Move(files: Files, from: Path, to: Path): Files
    requires from in files
  {
    (files - {from})[to := files[from]]
  }

  /** The keys a build could read right now. */
  function Hits(files: Files, stamp: string): set<string> {
    set p | p in files && Listable(p) && Hit(files, stamp, Base(p[2])) :: Base(p[2])
  }

  function Visited(s: State, l: Listing, path: Path, ok: bool): (Files, Listing)
    requires Listable(path)
  {
    var base := Base(path[2]);
    var l' := l.(pending := l.pending - {path});
    if HexName(base, 32) then (if ok then s.files - {path} else s.files, l')
    else if !ok then (s.files, l'.(failed := l.failed + {path}))
    else if path in s.files && Prefix(l.stamp) <= s.files[path] then (s.files, l'.(keys := l.keys + {base}))
    else (s.files, l')
  }

  function Apply(s: State, step: Step): State
    requires Enabled(s, step)
  {
    match step
    case Begin(id, pid, key, stamp, outcome) =>
      var record := Current(stamp, outcome);
      s.(writers := s.writers[id := InFlight(pid, key, record, Making)], handed := s.handed + {(key, record)})
    case Made(id, ok) => Advance(s, id, if ok then Creating else Cleaning)
    case Created(id, ok) =>
      if ok then Advance(s, id, Appending(0)).(files := s.files[TempOf(s.writers[id]) := []])
      else Advance(s, id, Cleaning)
    case Appended(id, upTo, ok) =>
      var w := s.writers[id];
      if !ok then Advance(s, id, Cleaning)
      else
        var temp := TempOf(w);
        var added := Blob(w)[w.phase.written..upTo];
        var files := if temp in s.files then s.files[temp := s.files[temp] + added] else s.files;
        Advance(s, id, Appending(upTo)).(files := files)
    case Closed(id) => Advance(s, id, Renaming)
    case Renamed(id, ok) =>
      var w := s.writers[id];
      if ok && TempOf(w) in s.files then Leave(s, id).(files := Move(s.files, TempOf(w), Target(w.key)))
      else Advance(s, id, Cleaning)
    case Cleaned(id, ok) =>
      Leave(s, id).(files := if ok then s.files - {TempOf(s.writers[id])} else s.files)
    case Crash(id) => Leave(s, id)
    case StartList(l, stamp) =>
      s.(listings := s.listings[l := Listing(stamp, Hits(s.files, stamp), set p | p in s.files && Listable(p), {}, {})])
    case Discover(l, path) =>
      s.(listings := s.listings[l := s.listings[l].(pending := s.listings[l].pending + {path})])
    case Visit(l, path, ok) =>
      var (files, l') := Visited(s, s.listings[l], path, ok);
      s.(files := files, listings := s.listings[l := l'])
    case SweepRoot(name) => s.(files := s.files - {[name]})
  }

  /** No two calls of `write` in one process are on their way for one key. */
  predicate Exclusive(s: State) {
    forall i, j :: i in s.writers && j in s.writers && i != j ==>
      s.writers[i].pid != s.writers[j].pid || s.writers[i].key != s.writers[j].key
  }

  /** Every step of the run is enabled when its turn comes. */
  predicate IsRun(s: State, steps: seq<Step>)
    decreases |steps|
  {
    steps == [] || (Enabled(s, steps[0]) && IsRun(Apply(s, steps[0]), steps[1..]))
  }

  function After(s: State, steps: seq<Step>): State
    requires IsRun(s, steps)
    decreases |steps|
  {
    if steps == [] then s else After(Apply(s, steps[0]), steps[1..])
  }

  /** No state of the run has two writes of one process and key on their way. */
  predicate AlwaysExclusive(s: State, steps: seq<Step>)
    requires IsRun(s, steps)
    decreases |steps|
  {
    Exclusive(s) && (steps == [] || AlwaysExclusive(Apply(s, steps[0]), steps[1..]))
  }

  // ----- The invariant -----

  /** The file at a listable path is one complete serialization of a record handed to `write` for its key. */
  ghost predicate Complete(s: State, p: Path)
    requires p in s.files && Listable(p)
  {
    var key := Base(p[2]);
    && ValidKey(key) && p == Target(key)
    && exists r :: (key, r) in s.handed && s.files[p] == TextOf(r)
  }

  /** A writer's temporary file holds exactly what it has written so far. */
  predicate Owns(s: State, w: InFlight) {
    && ValidKey(w.key) && IsPid(w.pid)
    && (w.key, w.record) in s.handed
    && (w.phase.Appending? ==>
          && TempOf(w) in s.files && w.phase.written <= |Blob(w)|
          && s.files[TempOf(w)] == Blob(w)[..w.phase.written])
    && (w.phase.Renaming? ==> TempOf(w) in s.files && s.files[TempOf(w)] == Blob(w))
  }

  ghost predicate Inv(s: State) {
    && (forall h :: h in s.handed ==> WellFormed(h.1))
    && (forall p :: p in s.files && Listable(p) ==> Complete(s, p))
    && (forall id :: id in s.writers ==> Owns(s, s.writers[id]))
  }

  lemma CompleteStays(s: State, s': State, p: Path)
    requires p in s.files && p in s'.files && Listable(p) && Complete(s, p)
    requires s.handed <= s'.handed && s'.files[p] == s.files[p]
    ensures Complete(s', p)
  {
    var r :| (Base(p[2]), r) in s.handed && s.files[p] == TextOf(r);
    assert (Base(p[2]), r) in s'.handed;
  }

  /** A step that touches no other writer's temporary file leaves that writer in possession. */
  lemma OthersKeepTheirs(s: State, id: nat, other: nat)
    requires Exclusive(s) && id in s.writers && other in s.writers && id != other
    requires ValidKey(s.writers[id].key) && ValidKey(s.writers[other].key)
    ensures TempOf(s.writers[id]) != TempOf(s.writers[other])
    ensures Target(s.writers[id].key) != TempOf(s.writers[other])
  {
    var a, b := s.writers[id], s.writers[other];
    if TempOf(a) == TempOf(b) {
      TempsAreDistinct(a.key, a.pid, b.key, b.pid);
      assert false;
    }
    TempIsPrivate(b.key, b.pid, a.key);
  }

  /** A writer may do as it likes with its own temporary file. */
  lemma OwnTempKeepsInv(s: State, s': State, id: nat)
    requires Inv(s) && Exclusive(s) && id in s.writers && s'.handed == s.handed
    requires s'.files - {TempOf(s.writers[id])} == s.files - {TempOf(s.writers[id])}
    requires s'.writers - {id} == s.writers - {id}
    requires id in s'.writers ==> Owns(s', s'.writers[id])
    ensures Inv(s')
  {
    var w := s.writers[id];
    TempIsPrivate(w.key, w.pid, w.key);
    assert Owns(s, w);
    forall p | p != TempOf(w)
      ensures p in s'.files <==> p in s.files
      ensures p in s.files ==> s'.files[p] == s.files[p]
    {
      assert p in s.files ==> p in s.files - {TempOf(w)};
      assert p in s'.files ==> p in s'.files - {TempOf(w)};
      assert p in s.files ==> (s.files - {TempOf(w)})[p] == s.files[p];
      assert p in s'.files ==> (s'.files - {TempOf(w)})[p] == s'.files[p];
    }
    forall p | p in s'.files && Listable(p)
      ensures Complete(s', p)
    {
      CompleteStays(s, s', p);
    }
    forall other | other in s'.writers && other != id
      ensures Owns(s', s'.writers[other])
    {
      assert other in s'.writers - {id} && (s'.writers - {id})[other] == s'.writers[other];
      assert other in s.writers && s.writers[other] == s'.writers[other];
      assert Owns(s, s.writers[other]);
      OthersKeepTheirs(s, id, other);
    }
  }

  lemma CreateKeepsInv(s: State, id: nat, ok: bool)
    requires Inv(s) && Exclusive(s) && Enabled(s, Created(id, ok))
    ensures Inv(Apply(s, Created(id, ok)))
  {
    assert Owns(s, s.writers[id]);
    OwnTempKeepsInv(s, Apply(s, Created(id, ok)), id);
  }

  /** After an append the file holds the longer prefix. */
  lemma AppendedIsOwned(s: State, id: nat, upTo: nat, ok: bool)
    requires Inv(s) && Enabled(s, Appended(id, upTo, ok))
    ensures var s' := Apply(s, Appended(id, upTo, ok)); Owns(s', s'.writers[id])
  {
    var w := s.writers[id];
    assert Owns(s, w);
    assert Blob(w)[..w.phase.written] + Blob(w)[w.phase.written..upTo] == Blob(w)[..upTo];
  }

  lemma AppendTouchesOneFile(s: State, id: nat, upTo: nat, ok: bool)
    requires Enabled(s, Appended(id, upTo, ok))
    ensures var s', temp := Apply(s, Appended(id, upTo, ok)), TempOf(s.writers[id]);
      && s'.files - {temp} == s.files - {temp} && s'.writers - {id} == s.writers - {id} && s'.handed == s.handed
  {}

  lemma AppendKeepsInv(s: State, id: nat, upTo: nat, ok: bool)
    requires Inv(s) && Exclusive(s) && Enabled(s, Appended(id, upTo, ok))
    ensures Inv(Apply(s, Appended(id, upTo, ok)))
  {
    AppendedIsOwned(s, id, upTo, ok);
    AppendTouchesOneFile(s, id, upTo, ok);
    OwnTempKeepsInv(s, Apply(s, Appended(id, upTo, ok)), id);
  }

  lemma CleanKeepsInv(s: State, id: nat, ok: bool)
    requires Inv(s) && Exclusive(s) && Enabled(s, Cleaned(id, ok))
    ensures Inv(Apply(s, Cleaned(id, ok)))
  {
    OwnTempKeepsInv(s, Apply(s, Cleaned(id, ok)), id);
  }

  lemma RenameKeepsInv(s: State, id: nat, ok: bool)
    requires Inv(s) && Exclusive(s) && Enabled(s, Renamed(id, ok))
    ensures Inv(Apply(s, Renamed(id, ok)))
  {
    var s' := Apply(s, Renamed(id, ok));
    var w := s.writers[id];
    TempIsPrivate(w.key, w.pid, w.key);
    TargetIsListable(w.key);
    assert Owns(s, w);
    forall p | p in s'.files && Listable(p)
      ensures Complete(s', p)
    {
      if ok && p == Target(w.key) {
        assert (w.key, w.record) in s'.handed && s'.files[p] == TextOf(w.record);
      } else {
        CompleteStays(s, s', p);
      }
    }
    forall other | other in s'.writers
      ensures Owns(s', s'.writers[other])
    {
      assert Owns(s, s.writers[other]);
      if other != id {
        OthersKeepTheirs(s, id, other);
      }
    }
  }

  lemma OtherStepKeepsInv(s: State, step: Step)
    requires Inv(s) && Exclusive(s) && Enabled(s, step)
    requires !step.Created? && !step.Appended? && !step.Cleaned? && !step.Renamed?
    ensures Inv(Apply(s, step))
  {
    var s' := Apply(s, step);
    forall p | p in s'.files && Listable(p)
      ensures Complete(s', p)
    {
      CompleteStays(s, s', p);
    }
    forall other | other in s'.writers
      ensures Owns(s', s'.writers[other])
    {
      if other in s.writers {
        OwnerStays(s, step, other);
      }
    }
  }

  lemma OwnerStays(s: State, step: Step, other: nat)
    requires Inv(s) && Enabled(s, step) && other in s.writers && other in Apply(s, step).writers
    requires !step.Created? && !step.Appended? && !step.Cleaned? && !step.Renamed?
    ensures Owns(Apply(s, step), Apply(s, step).writers[other])
  {
    var w := s.writers[other];
    assert Owns(s, w);
    TempIsPrivate(w.key, w.pid, w.key);
    assert |TempOf(w)| == 3;
  }

  lemma StepKeepsInv(s: State, step: Step)
    requires Inv(s) && Exclusive(s) && Enabled(s, step)
    ensures Inv(Apply(s, step))
  {
    match step
    case Created(id, ok) => CreateKeepsInv(s, id, ok);
    case Appended(id, upTo, ok) => AppendKeepsInv(s, id, upTo, ok);
    case Cleaned(id, ok) => CleanKeepsInv(s, id, ok);
    case Renamed(id, ok) => RenameKeepsInv(s, id, ok);
    case _ => OtherStepKeepsInv(s, step);
  }

  /**
   * Over every interleaving, whatever fails or crashes: no target is ever torn. Each holds one complete
   * serialization of a record handed to `write` for its own key.
   */
  lemma {:induction false} TargetsAreNeverTorn(s: State, steps: seq<Step>)
    requires Inv(s) && IsRun(s, steps) && AlwaysExclusive(s, steps)
    ensures Inv(After(s, steps))
    decreases |steps|
  {
    if steps != [] {
      StepKeepsInv(s, steps[0]);
      TargetsAreNeverTorn(Apply(s, steps[0]), steps[1..]);
    }
  }

  /** So a read answers only with what some `write` of the same build was handed for that very key, as it is stored. */
  lemma ReadsOnlyWhatWasHanded(s: State, stamp: string, key: string) returns (outcome: Outcome)
    requires Inv(s) && Hit(s.files, stamp, key)
    ensures (key, Current(stamp, outcome)) in s.handed
    ensures Readable(outcome) && ReadFile(s.files, stamp, key) == Some(AsStored(outcome))
  {
    TargetIsListable(key);
    assert Complete(s, Target(key));
    var r :| (key, r) in s.handed && s.files[Target(key)] == TextOf(r);
    assert WellFormed((key, r).1);
    RecordReads(s.files, stamp, key, r);
    outcome := r.outcome;
  }
}
