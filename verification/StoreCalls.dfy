/** What the store's calls owe to one another when they do not overlap. */
module StoreCalls {
  import opened Prelude
  import opened PdfItems
  import opened JsonText
  import opened CacheEntry
  import opened StorePaths
  import opened StoreRecords
  import StoreProtocol
  import opened StoreListing
  import opened AnchoredTextStore

  /** The file at a listable path was installed by `write`, under this build or another. */
  ghost predicate InstalledAt(files: Files, p: Path)
    requires p in files && Listable(p)
  {
    var key := Base(p[2]);
    ValidKey(key) && p == Target(key) && exists r :: WellFormed(r) && files[p] == TextOf(r)
  }

  ghost predicate Installed(files: Files) {
    forall p :: p in files && Listable(p) ==> InstalledAt(files, p)
  }

  /**
   * What was written is read back exactly when the numbers of its items are finite, and it is then the very same
   * outcome exactly when the numbers of its provenance are finite too.
   */
  lemma WriteThenRead(files: Files, stamp: string, key: string, outcome: Outcome, pid: string, stuck: bool)
    requires ValidKey(key) && WellTyped(outcome)
    ensures var back := ReadFile(Written(files, stamp, key, outcome, pid, NoFault, stuck), stamp, key);
      && back == (if Readable(outcome) then Some(AsStored(outcome)) else None)
      && (back == Some(outcome) <==> Storable(outcome))
  {
    RecordReads(Written(files, stamp, key, outcome, pid, NoFault, stuck), stamp, key, Current(stamp, outcome));
    ComesBackWholeIff(outcome);
  }

  /** A read needs a valid key and a file it can open, and nothing but that file. */
  lemma ReadNeedsItsFile(files: Files, files': Files, stamp: string, denied: set<Path>, key: string)
    ensures ReadVia(files, stamp, denied, key).Some? ==>
      ValidKey(key) && Target(key) in files && Target(key) !in denied
    ensures Target(key) in files && Target(key) in files' && files[Target(key)] == files'[Target(key)] ==>
      ReadVia(files, stamp, denied, key) == ReadVia(files', stamp, denied, key)
  {}

  /** A write changes no entry but its own, and a write that fails or is refused changes none at all. */
  lemma WriteTouchesOnlyItsKey(files: Files, stamp: string, key: string, outcome: Outcome, pid: string,
                               fault: Fault, stuck: bool, p: Path)
    requires Listable(p) && (p == Target(key) ==> !ValidKey(key) || !fault.NoFault?)
    ensures var files' := Written(files, stamp, key, outcome, pid, fault, stuck);
      (p in files' <==> p in files) && (p in files ==> files'[p] == files[p])
  {
    TempIsPrivate(key, pid, key);
  }

  lemma WriteKeepsInstalled(files: Files, stamp: string, key: string, outcome: Outcome, pid: string,
                            fault: Fault, stuck: bool)
    requires Installed(files) && WellTyped(outcome)
    ensures Installed(Written(files, stamp, key, outcome, pid, fault, stuck))
  {
    var files' := Written(files, stamp, key, outcome, pid, fault, stuck);
    forall p | p in files' && Listable(p)
      ensures InstalledAt(files', p)
    {
      TargetIsListable(key);
      if p == Target(key) && ValidKey(key) && fault.NoFault? {
        assert WellFormed(Current(stamp, outcome)) && files'[p] == TextOf(Current(stamp, outcome));
      } else {
        WriteTouchesOnlyItsKey(files, stamp, key, outcome, pid, fault, stuck, p);
        assert InstalledAt(files, p);
      }
    }
  }

  /** What is left after the sweeps of a whole listing. */
  function AfterList(files: Files, denied: set<Path>): Files {
    Swept(files, denied, files.Keys)
  }

  /** `list` answers with this key. */
  ghost predicate Lists(files: Files, stamp: string, denied: set<Path>, key: string) {
    exists p :: Accepted(files, stamp, denied, p) && Base(p[2]) == key
  }

  /** An entry of this build with an item in which some number is not finite. */
  ghost predicate HoldsNonFinite(files: Files, stamp: string, key: string) {
    && Target(key) in files
    && exists o: Outcome :: WellTyped(o) && !Readable(o) && files[Target(key)] == TextOf(Current(stamp, o))
  }

  /**
   * Listed keys against read hits, after the call: they are the same keys, but for interim keys, shards that
   * cannot be read, and entries that hold a number that is not finite. Those last are listed and never read.
   */
  lemma ListedIffReadable(files: Files, stamp: string, denied: set<Path>, key: string)
    requires Installed(files)
    ensures var files' := AfterList(files, denied);
      Lists(files, stamp, denied, key) <==>
        && ValidKey(key) && !Interim(key) && Reachable(Target(key), denied) && Target(key) !in denied
        && (ReadVia(files', stamp, denied, key).Some? || HoldsNonFinite(files', stamp, key))
  {
    var files', t := AfterList(files, denied), Target(key);
    TargetIsListable(key);
    if t in files {
      assert InstalledAt(files, t);
      var r :| WellFormed(r) && files[t] == TextOf(r);
      RecordListed(stamp, r);
      if t in files' {
        RecordReads(files', stamp, key, r);
        NonFiniteIs(files', stamp, key, r);
      }
    }
    if Lists(files, stamp, denied, key) {
      var p :| Accepted(files, stamp, denied, p) && Base(p[2]) == key;
      assert InstalledAt(files, p);
    } else if t in files {
      assert !Accepted(files, stamp, denied, t);
    }
  }

  lemma NonFiniteIs(files: Files, stamp: string, key: string, r: Record)
    requires ValidKey(key) && Target(key) in files && files[Target(key)] == TextOf(r) && WellFormed(r)
    ensures HoldsNonFinite(files, stamp, key) <==> r.Current? && r.stamp == stamp && !Readable(r.outcome)
  {
    RecordListed(stamp, r);
    RecordReads(files, stamp, key, r);
    forall o: Outcome | WellTyped(o) && !Readable(o) && files[Target(key)] == TextOf(Current(stamp, o))
      ensures r.Current? && r.stamp == stamp && !Readable(r.outcome)
    {
      RecordListed(stamp, Current(stamp, o));
      RecordReads(files, stamp, key, Current(stamp, o));
    }
  }

  /** The concrete case: a NaN coordinate makes an entry that is listed forever and read never. */
  lemma NonFiniteEntryIsListedNotRead(stamp: string, key: string, text: string, item: Item, pid: string)
    requires ValidKey(key) && !Interim(key) && !item.Finite()
    ensures var o := Extracted(text, [item], [Field("method", JStr("ocr"))]);
      var files := Written(map[], stamp, key, o, pid, NoFault, false);
      Lists(files, stamp, {}, key) && ReadVia(AfterList(files, {}), stamp, {}, key).None?
  {
    var provenance := [Field("method", JStr("ocr"))];
    var o := Extracted(text, [item], provenance);
    var files := Written(map[], stamp, key, o, pid, NoFault, false);
    LookupAt(provenance, 0);
    assert WellTyped(o) && !Readable(o) by {
      assert !o.items[0].Finite();
    }
    TargetIsListable(key);
    RecordListed(stamp, Current(stamp, o));
    assert Accepted(files, stamp, {}, Target(key));
    RecordReads(AfterList(files, {}), stamp, key, Current(stamp, o));
  }

  /** The sweeps take nothing away from a reader, except interim keys. */
  lemma SweepsSpareReaders(files: Files, stamp: string, denied: set<Path>, key: string)
    requires !Interim(key)
    ensures ReadVia(AfterList(files, denied), stamp, denied, key) == ReadVia(files, stamp, denied, key)
  {
    TargetIsListable(key);
  }

  /** Distinct files carry distinct keys, so `list` never repeats one. */
  lemma ListedPathsHaveDistinctKeys(files: Files, stamp: string, denied: set<Path>, p: Path, q: Path)
    requires Installed(files) && Accepted(files, stamp, denied, p) && Accepted(files, stamp, denied, q) && p != q
    ensures Base(p[2]) != Base(q[2])
  {
    assert InstalledAt(files, p) && InstalledAt(files, q);
  }

  // ----- Where runs may start -----

  /** No entry of this build holds an item number that is not finite. */
  ghost predicate AllReadable(files: Files, stamp: string) {
    forall key :: ValidKey(key) ==> !HoldsNonFinite(files, stamp, key)
  }

  /** The record installed at a path. */
  ghost function RecordAt(files: Files, p: Path): (r: Record)
    requires p in files && Listable(p) && InstalledAt(files, p)
    ensures WellFormed(r) && files[p] == TextOf(r)
  {
    var r :| WellFormed(r) && files[p] == TextOf(r);
    r
  }

  /** Any files installed by `write`, under any builds, are those of a state from which every run may start. */
  lemma InstalledFilesCanStart(files: Files, stamp: string) returns (s: StoreProtocol.State)
    requires Installed(files)
    ensures s.files == files && s.writers == map[] && s.listings == map[] && StoreProtocol.Inv(s)
    ensures AllReadable(files, stamp) ==> ListInv(s, stamp)
  {
    var handed := set p | p in files && Listable(p) :: (Base(p[2]), RecordAt(files, p));
    s := StoreProtocol.State(files, map[], map[], handed);
    forall p | p in files && Listable(p)
      ensures StoreProtocol.Complete(s, p)
    {
      assert InstalledAt(files, p);
      assert (Base(p[2]), RecordAt(files, p)) in s.handed;
    }
    if AllReadable(files, stamp) {
      forall h | h in s.handed && h.1.Current? && h.1.stamp == stamp
        ensures Readable(h.1.outcome)
      {
        var p :| p in files && Listable(p) && h == (Base(p[2]), RecordAt(files, p));
        assert InstalledAt(files, p);
        assert !HoldsNonFinite(files, stamp, Base(p[2]));
      }
    }
  }

  /** In every state a run reaches, the files are installed ones. */
  lemma ReachedFilesAreInstalled(s: StoreProtocol.State)
    requires StoreProtocol.Inv(s)
    ensures Installed(s.files)
  {
    forall p | p in s.files && Listable(p)
      ensures InstalledAt(s.files, p)
    {
      assert StoreProtocol.Complete(s, p);
      var r :| (Base(p[2]), r) in s.handed && s.files[p] == TextOf(r);
      assert WellFormed((Base(p[2]), r).1);
    }
  }
}
