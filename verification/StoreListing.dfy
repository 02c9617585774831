/** What `list` promises while writers run. */
module StoreListing {
  import opened CacheEntry
  import opened StorePaths
  import opened StoreRecords
  import opened StoreProtocol

  /** A key of the interim scheme, which `list` reaps. */
  predicate Interim(key: string) {
    HexName(key, 32)
  }

  /** A record of this build that can be read back. */
  predicate Ours(r: Record, stamp: string) {
    r.Current? && r.stamp == stamp && Readable(r.outcome)
  }

  /** A step of a run in which one build writes and lists. */
  predicate OneBuild(step: Step, stamp: string) {
    match step
    case Begin(_, _, _, s, outcome) => s == stamp && Readable(outcome)
    case StartList(_, s) => s == stamp
    case _ => true
  }

  /** Listed keys are hits, and no key that was a hit at the start has been lost. */
  ghost predicate ListingOk(files: Files, l: Listing, stamp: string) {
    && l.stamp == stamp
    && (forall key :: key in l.keys ==> !Interim(key) && Hit(files, stamp, key))
    && (forall key :: key in l.before && !Interim(key) ==>
          Hit(files, stamp, key) && (key in l.keys || Target(key) in l.pending || Target(key) in l.failed))
  }

  ghost predicate ListInv(s: State, stamp: string) {
    && Inv(s)
    && (forall h :: h in s.handed && h.1.Current? && h.1.stamp == stamp ==> Ours(h.1, stamp))
    && (forall id :: id in s.writers ==> Ours(s.writers[id].record, stamp))
    && (forall l :: l in s.listings ==> ListingOk(s.files, s.listings[l], stamp))
  }

  lemma HitAtTarget(s: State, stamp: string, key: string) returns (r: Record)
    requires ListInv(s, stamp) && Hit(s.files, stamp, key)
    ensures ValidKey(key) && Listable(Target(key)) && Target(key) in s.files
    ensures s.files[Target(key)] == TextOf(r) && WellFormed(r) && Ours(r, stamp)
  {
    TargetIsListable(key);
    assert Complete(s, Target(key));
    r :| (key, r) in s.handed && s.files[Target(key)] == TextOf(r);
    assert WellFormed((key, r).1);
    RecordReads(s.files, stamp, key, r);
  }

  /** A rename puts an entry of this build in place, so what it replaces stays readable. */
  lemma RenameKeepsHits(s: State, stamp: string, id: nat, ok: bool, key: string)
    requires ListInv(s, stamp) && Enabled(s, Renamed(id, ok)) && Hit(s.files, stamp, key)
    ensures Hit(Apply(s, Renamed(id, ok)).files, stamp, key)
  {
    var w, s' := s.writers[id], Apply(s, Renamed(id, ok));
    var r := HitAtTarget(s, stamp, key);
    TargetIsListable(w.key);
    TempIsPrivate(w.key, w.pid, key);
    assert Owns(s, w);
    if ok && Target(key) == Target(w.key) {
      assert WellFormed((w.key, w.record).1);
      RecordReads(s'.files, stamp, key, w.record);
    } else {
      RecordReads(s'.files, stamp, key, r);
    }
  }

  /** Within one build a readable key stays readable through every step, unless it is an interim key being reaped. */
  lemma StepKeepsHits(s: State, stamp: string, step: Step, key: string)
    requires ListInv(s, stamp) && Enabled(s, step)
    requires Hit(s.files, stamp, key) && !Interim(key)
    ensures Hit(Apply(s, step).files, stamp, key)
  {
    var s' := Apply(s, step);
    if step.Renamed? {
      RenameKeepsHits(s, stamp, step.id, step.ok, key);
    } else {
      var r := HitAtTarget(s, stamp, key);
      if step.Created? || step.Appended? || step.Cleaned? {
        var w := s.writers[step.id];
        TempIsPrivate(w.key, w.pid, key);
      }
      TargetIsListable(key);
      assert Target(key) in s'.files && s'.files[Target(key)] == s.files[Target(key)];
      RecordReads(s'.files, stamp, key, r);
    }
  }

  lemma VisitKeepsListing(s: State, stamp: string, l: nat, path: Path, ok: bool)
    requires ListInv(s, stamp) && Enabled(s, Visit(l, path, ok))
    ensures var s' := Apply(s, Visit(l, path, ok)); ListingOk(s'.files, s'.listings[l], stamp)
  {
    var step := Visit(l, path, ok);
    var s', was, base := Apply(s, step), s.listings[l], Base(path[2]);
    var now := s'.listings[l];
    assert ListingOk(s.files, was, stamp);
    forall key | key in now.keys
      ensures !Interim(key) && Hit(s'.files, stamp, key)
    {
      if key in was.keys {
        StepKeepsHits(s, stamp, step, key);
      } else {
        PrefixMeansHit(s, stamp, path);
      }
    }
    forall key | key in now.before && !Interim(key)
      ensures Hit(s'.files, stamp, key)
      ensures key in now.keys || Target(key) in now.pending || Target(key) in now.failed
    {
      StepKeepsHits(s, stamp, step, key);
      if Target(key) == path && ok {
        var r := HitAtTarget(s, stamp, key);
        TargetIsListable(key);
        RecordListed(stamp, r);
      }
    }
  }

  /** A file that passes the bounded test is readable. */
  lemma PrefixMeansHit(s: State, stamp: string, path: Path)
    requires ListInv(s, stamp) && path in s.files && Listable(path) && Prefix(stamp) <= s.files[path]
    ensures Hit(s.files, stamp, Base(path[2]))
  {
    var key := Base(path[2]);
    assert Complete(s, path);
    var r :| (key, r) in s.handed && s.files[path] == TextOf(r);
    assert WellFormed((key, r).1);
    RecordListed(stamp, r);
    assert Ours((key, r).1, stamp);
    RecordReads(s.files, stamp, key, r);
  }

  lemma NewListingOk(s: State, stamp: string)
    requires ListInv(s, stamp)
    ensures ListingOk(s.files, Listing(stamp, Hits(s.files, stamp), set p | p in s.files && Listable(p), {}, {}), stamp)
  {
    forall key | key in Hits(s.files, stamp)
      ensures Hit(s.files, stamp, key) && Target(key) in s.files && Listable(Target(key))
    {
      var p :| p in s.files && Listable(p) && Hit(s.files, stamp, Base(p[2])) && Base(p[2]) == key;
      TargetIsListable(key);
    }
  }

  /** Whatever is handed over or on its way is still of this build and storable. */
  lemma StepKeepsOurs(s: State, stamp: string, step: Step)
    requires ListInv(s, stamp) && Enabled(s, step) && OneBuild(step, stamp)
    ensures var s' := Apply(s, step);
      && (forall h :: h in s'.handed && h.1.Current? && h.1.stamp == stamp ==> Ours(h.1, stamp))
      && (forall id :: id in s'.writers ==> Ours(s'.writers[id].record, stamp))
  {}

  lemma StepKeepsListInv(s: State, stamp: string, step: Step)
    requires ListInv(s, stamp) && Exclusive(s) && Enabled(s, step) && OneBuild(step, stamp)
    ensures ListInv(Apply(s, step), stamp)
  {
    var s' := Apply(s, step);
    StepKeepsInv(s, step);
    StepKeepsOurs(s, stamp, step);
    forall l | l in s'.listings
      ensures ListingOk(s'.files, s'.listings[l], stamp)
    {
      if step.StartList? && step.list == l {
        NewListingOk(s, stamp);
      } else if step.Visit? && step.list == l {
        VisitKeepsListing(s, stamp, l, step.path, step.ok);
      } else {
        OtherStepKeepsListing(s, stamp, step, l);
      }
    }
  }

  lemma OtherStepKeepsListing(s: State, stamp: string, step: Step, l: nat)
    requires ListInv(s, stamp) && Exclusive(s) && Enabled(s, step) && OneBuild(step, stamp)
    requires l in Apply(s, step).listings
    requires !(step.StartList? && step.list == l) && !(step.Visit? && step.list == l)
    ensures ListingOk(Apply(s, step).files, Apply(s, step).listings[l], stamp)
  {
    assert ListingOk(s.files, s.listings[l], stamp);
    forall key | Hit(s.files, stamp, key) && !Interim(key)
      ensures Hit(Apply(s, step).files, stamp, key)
    {
      StepKeepsHits(s, stamp, step, key);
    }
  }

  predicate OneBuildRun(steps: seq<Step>, stamp: string) {
    forall i :: 0 <= i < |steps| ==> OneBuild(steps[i], stamp)
  }

  lemma {:induction false} RunKeepsListInv(s: State, stamp: string, steps: seq<Step>)
    requires ListInv(s, stamp) && IsRun(s, steps) && AlwaysExclusive(s, steps) && OneBuildRun(steps, stamp)
    ensures ListInv(After(s, steps), stamp)
    decreases |steps|
  {
    if steps != [] {
      assert OneBuild(steps[0], stamp);
      StepKeepsListInv(s, stamp, steps[0]);
      RunKeepsListInv(Apply(s, steps[0]), stamp, steps[1..]);
    }
  }

  /** A readable key stays readable for the rest of a single-build run. */
  lemma {:induction false} HitsLast(s: State, stamp: string, steps: seq<Step>, key: string)
    requires ListInv(s, stamp) && IsRun(s, steps) && AlwaysExclusive(s, steps) && OneBuildRun(steps, stamp)
    requires Hit(s.files, stamp, key) && !Interim(key)
    ensures Hit(After(s, steps).files, stamp, key)
    decreases |steps|
  {
    if steps != [] {
      assert OneBuild(steps[0], stamp);
      StepKeepsListInv(s, stamp, steps[0]);
      StepKeepsHits(s, stamp, steps[0], key);
      HitsLast(Apply(s, steps[0]), stamp, steps[1..], key);
    }
  }

  /**
   * When a listing has nothing left to visit, every key it returns is a read hit at that moment and not interim,
   * and every key that was a hit when it began is returned, except interim keys and files it could not open.
   */
  lemma ListingIsExact(s: State, stamp: string, steps: seq<Step>, l: nat)
    requires ListInv(s, stamp) && IsRun(s, steps) && AlwaysExclusive(s, steps) && OneBuildRun(steps, stamp)
    requires l in After(s, steps).listings && After(s, steps).listings[l].pending == {}
    ensures var end := After(s, steps);
      var done := end.listings[l];
      && (forall key :: key in done.keys ==> !Interim(key) && Hit(end.files, stamp, key))
      && (forall key :: key in done.before && !Interim(key) && Target(key) !in done.failed ==> key in done.keys)
  {
    RunKeepsListInv(s, stamp, steps);
  }
}
