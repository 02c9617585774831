/** From recognition to a stored entry and back: the cached extraction seam. */
module EndToEnd {
  import opened Prelude
  import opened PdfItems
  import opened JsonText
  import opened CacheEntry
  import opened StorePaths
  import opened StoreRecords
  import opened AnchoredTextStore
  import opened StoreCalls
  import opened OcrDocument
  import StoreProtocol
  import FormFields
  import TextLayer
  import PdfExtraction

  // ----- Anchors survive the store -----

  /** Slicing the text at the item's offsets gives the word. */
  predicate ItemSelects(text: string, item: Item, word: string) {
    && item.start.Fin? && item.end.Fin?
    && exists start: nat, end: nat ::
         item.start.r == start as real && item.end.r == end as real && start < end <= |text| && text[start..end] == word
  }

  predicate ItemsSelect(o: Outcome, words: seq<string>) {
    && o.Extracted? && |o.items| == |words|
    && forall i :: 0 <= i < |words| ==> ItemSelects(o.text, o.items[i], words[i])
  }

  function Packed(a: Anchored, provenance: seq<Field>): Outcome {
    Extracted(a.text, ToItems(a.items), provenance)
  }

  lemma ExactItemsSelect(a: Anchored, words: seq<string>, provenance: seq<Field>)
    requires Exact(a, words)
    ensures ItemsSelect(Packed(a, provenance), words)
  {
    forall i | 0 <= i < |words|
      ensures ItemSelects(a.text, ToItems(a.items)[i], words[i])
    {
      var run := a.items[i];
      assert Selects(a.text, run, words[i]);
    }
  }

  /** Written and read back, an exact extraction selects the same words from the same text. */
  lemma AnchorsSurviveTheStore(files: Files, stamp: string, key: string, pid: string, stuck: bool,
                               a: Anchored, words: seq<string>, provenance: seq<Field>)
    requires ValidKey(key) && Exact(a, words) && WellTyped(Packed(a, provenance))
    ensures var back := ReadFile(Written(files, stamp, key, Packed(a, provenance), pid, NoFault, stuck), stamp, key);
      back == Some(AsStored(Packed(a, provenance))) && ItemsSelect(back.value, words)
  {
    WriteThenRead(files, stamp, key, Packed(a, provenance), pid, stuck);
    ExactItemsSelect(a, words, provenance);
    assert Readable(Packed(a, provenance));
  }

  /**
   * Any document, of any class: what is read back after storing its extraction selects exactly the words of the
   * document, in order, those of the recognition trees included.
   */
  lemma ExtractionSurvivesTheStore(contents: seq<TextLayer.PageContent>, fields: seq<FormFields.FormField>,
                                   scanned: seq<ScannedPage>, files: Files, stamp: string, key: string, pid: string,
                                   stuck: bool, provenance: seq<Field>)
    requires ValidKey(key) && FormFields.Filling(fields)
    requires PdfExtraction.ExtractionOf(contents, fields, scanned).Extract?
    requires WellTyped(Packed(PdfExtraction.ExtractionOf(contents, fields, scanned).content, provenance))
    ensures var o := Packed(PdfExtraction.ExtractionOf(contents, fields, scanned).content, provenance);
      var back := ReadFile(Written(files, stamp, key, o, pid, NoFault, stuck), stamp, key);
      back.Some? && ItemsSelect(back.value, PdfExtraction.Words(contents, fields, scanned))
  {
    PdfExtraction.ExtractionIsExact(contents, fields, scanned);
    AnchorsSurviveTheStore(files, stamp, key, pid, stuck, PdfExtraction.ExtractionOf(contents, fields, scanned).content,
                           PdfExtraction.Words(contents, fields, scanned), provenance);
  }

  // ----- The cache is transparent -----

  /** What is read for a key is nothing, or this outcome as it is stored. */
  predicate Serves(files: Files, stamp: string, key: string, o: Outcome) {
    ReadFile(files, stamp, key) == None || (Readable(o) && ReadFile(files, stamp, key) == Some(AsStored(o)))
  }

  /** Every hit is what the pipeline would compute: `compute` gives the outcome of the bytes a key identifies. */
  ghost predicate Coherent(files: Files, stamp: string, compute: string -> Outcome) {
    forall key :: Serves(files, stamp, key, compute(key))
  }

  lemma WriteKeepsCoherent(files: Files, stamp: string, compute: string -> Outcome, key: string, pid: string,
                           fault: Fault, stuck: bool)
    requires Coherent(files, stamp, compute) && WellTyped(compute(key))
    ensures Coherent(Written(files, stamp, key, compute(key), pid, fault, stuck), stamp, compute)
  {
    var files' := Written(files, stamp, key, compute(key), pid, fault, stuck);
    forall other
      ensures Serves(files', stamp, other, compute(other))
    {
      assert Serves(files, stamp, other, compute(other));
      if ValidKey(other) {
        TargetIsListable(other);
        TargetIsListable(key);
        if other == key && fault.NoFault? {
          WriteThenRead(files, stamp, key, compute(key), pid, stuck);
        } else {
          WriteTouchesOnlyItsKey(files, stamp, key, compute(key), pid, fault, stuck, Target(other));
        }
      }
    }
  }

  lemma SweepsKeepCoherent(files: Files, stamp: string, compute: string -> Outcome, denied: set<Path>)
    requires Coherent(files, stamp, compute)
    ensures Coherent(AfterList(files, denied), stamp, compute)
  {
    forall key
      ensures Serves(AfterList(files, denied), stamp, key, compute(key))
    {
      assert Serves(files, stamp, key, compute(key));
    }
  }

  /** One call a process can make, with whatever goes wrong in it. */
  datatype Call =
    | Extraction(key: string, pid: string, denied: set<Path>, fault: Fault, stuck: bool)
    | Listing(denied: set<Path>)

  /** What a cached extraction answers. */
  function Answer(files: Files, stamp: string, compute: string -> Outcome, key: string, denied: set<Path>): Outcome {
    match ReadVia(files, stamp, denied, key)
    case Some(hit) => hit
    case None => compute(key)
  }

  /**
   * The answer is the computed outcome, or, if only its provenance holds a number that is not finite, possibly what
   * comes back of it from the store.
   */
  predicate AsIfUncached(answer: Outcome, computed: Outcome) {
    answer == computed || (Readable(computed) && !Storable(computed) && answer == AsStored(computed))
  }

  lemma CoherentAnswers(files: Files, stamp: string, compute: string -> Outcome, key: string, denied: set<Path>)
    requires Coherent(files, stamp, compute)
    ensures AsIfUncached(Answer(files, stamp, compute, key, denied), compute(key))
  {
    assert Serves(files, stamp, key, compute(key));
    ComesBackWholeIff(compute(key));
  }

  function AfterCall(files: Files, stamp: string, compute: string -> Outcome, call: Call): Files {
    match call
    case Extraction(key, pid, denied, fault, stuck) =>
      if ReadVia(files, stamp, denied, key).Some? then files
      else Written(files, stamp, key, compute(key), pid, fault, stuck)
    case Listing(denied) => AfterList(files, denied)
  }

  /** An extraction that nothing prevents from storing its outcome is remembered: the next read of the key is a hit. */
  lemma ExtractionIsRemembered(files: Files, stamp: string, compute: string -> Outcome, key: string, pid: string,
                               stuck: bool)
    requires Coherent(files, stamp, compute) && ValidKey(key) && WellTyped(compute(key)) && Readable(compute(key))
    ensures ReadFile(AfterCall(files, stamp, compute, Extraction(key, pid, {}, NoFault, stuck)), stamp, key)
         == Some(AsStored(compute(key)))
  {
    assert Serves(files, stamp, key, compute(key));
    WriteThenRead(files, stamp, key, compute(key), pid, stuck);
  }

  function AfterCalls(files: Files, stamp: string, compute: string -> Outcome, calls: seq<Call>): Files {
    if calls == [] then files
    else AfterCall(AfterCalls(files, stamp, compute, Front(calls)), stamp, compute, Last(calls))
  }

  /** `extract` with a cache: consult, else compute and store; a failed write is silent. */
  method ExtractCached(store: Store, compute: string -> Outcome, key: string, pid: string,
                       denied: set<Path>, fault: Fault, stuck: bool)
    returns (outcome: Outcome)
    modifies store`files
    ensures outcome == Answer(old(store.files), store.stamp, compute, key, denied)
    ensures store.files
         == AfterCall(old(store.files), store.stamp, compute, Extraction(key, pid, denied, fault, stuck))
  {
    var hit := store.Read(key, denied);
    if hit.Some? {
      return hit.value;
    }
    outcome := compute(key);
    store.Write(key, outcome, pid, fault, stuck);
  }

  lemma {:induction false} CallsKeepCoherent(files: Files, stamp: string, compute: string -> Outcome, calls: seq<Call>)
    requires Coherent(files, stamp, compute) && forall key :: WellTyped(compute(key))
    ensures Coherent(AfterCalls(files, stamp, compute, calls), stamp, compute)
  {
    if calls != [] {
      CallsKeepCoherent(files, stamp, compute, Front(calls));
      var before := AfterCalls(files, stamp, compute, Front(calls));
      match Last(calls)
      case Extraction(key, pid, denied, fault, stuck) =>
        WriteKeepsCoherent(before, stamp, compute, key, pid, fault, stuck);
      case Listing(denied) =>
        SweepsKeepCoherent(before, stamp, compute, denied);
    }
  }

  /** After any calls, whatever failed in them, an extraction answers as if there were no store. */
  lemma CacheIsTransparent(files: Files, stamp: string, compute: string -> Outcome, calls: seq<Call>,
                           key: string, denied: set<Path>)
    requires Coherent(files, stamp, compute) && forall key :: WellTyped(compute(key))
    ensures AsIfUncached(Answer(AfterCalls(files, stamp, compute, calls), stamp, compute, key, denied), compute(key))
  {
    CallsKeepCoherent(files, stamp, compute, calls);
    CoherentAnswers(AfterCalls(files, stamp, compute, calls), stamp, compute, key, denied);
  }

  // ----- Many processes at once -----

  /** What a build writes for a key is what the pipeline computes for it. */
  predicate HandsTheComputed(step: StoreProtocol.Step, stamp: string, compute: string -> Outcome) {
    step.Begin? && step.stamp == stamp ==> step.outcome == compute(step.key)
  }

  predicate AllHandTheComputed(steps: seq<StoreProtocol.Step>, stamp: string, compute: string -> Outcome) {
    forall i :: 0 <= i < |steps| ==> HandsTheComputed(steps[i], stamp, compute)
  }

  /** Every record of this build that was ever handed over is the computed one. */
  predicate HandedIsComputed(s: StoreProtocol.State, stamp: string, compute: string -> Outcome) {
    forall h :: h in s.handed && h.1.Current? && h.1.stamp == stamp ==> h.1.outcome == compute(h.0)
  }

  lemma HandedCoheres(s: StoreProtocol.State, stamp: string, compute: string -> Outcome)
    requires StoreProtocol.Inv(s) && HandedIsComputed(s, stamp, compute)
    ensures Coherent(s.files, stamp, compute)
  {
    forall key
      ensures Serves(s.files, stamp, key, compute(key))
    {
      if Hit(s.files, stamp, key) {
        var outcome := StoreProtocol.ReadsOnlyWhatWasHanded(s, stamp, key);
        var h := (key, Current(stamp, outcome));
        assert h in s.handed && h.1.Current?;
      }
    }
  }

  /**
   * With any number of processes, builds and listings, their steps interleaved in any order and any of them
   * failing or crashing: at every moment a hit is what the pipeline computes, so an extraction answers as if there
   * were no store.
   */
  lemma {:induction false} SharedCacheIsTransparent(s: StoreProtocol.State, steps: seq<StoreProtocol.Step>,
                                                    stamp: string, compute: string -> Outcome,
                                                    key: string, denied: set<Path>)
    requires StoreProtocol.Inv(s) && StoreProtocol.IsRun(s, steps) && StoreProtocol.AlwaysExclusive(s, steps)
    requires HandedIsComputed(s, stamp, compute) && AllHandTheComputed(steps, stamp, compute)
    ensures Coherent(StoreProtocol.After(s, steps).files, stamp, compute)
    ensures AsIfUncached(Answer(StoreProtocol.After(s, steps).files, stamp, compute, key, denied), compute(key))
    decreases |steps|
  {
    if steps == [] {
      HandedCoheres(s, stamp, compute);
      CoherentAnswers(s.files, stamp, compute, key, denied);
    } else {
      assert HandsTheComputed(steps[0], stamp, compute);
      StoreProtocol.StepKeepsInv(s, steps[0]);
      SharedCacheIsTransparent(StoreProtocol.Apply(s, steps[0]), steps[1..], stamp, compute, key, denied);
    }
  }
}
