/** Which streams the cleanup script would delete: the classification, and what it means for the lines of a stream. */
module EventCleanup {
  import opened Prelude
  import opened EventLog
  import opened EventReplay

  datatype Verdict = NoStorageUri | KeptArchived | Present | ToDelete

  const SCHEME := "file://"

  function VerdictOf(r: Replay, present: string -> bool): Verdict {
    if r.uri == None || r.uri.value == "" then NoStorageUri
    else if r.archived then KeptArchived
    else if !(SCHEME <= r.uri.value) then NoStorageUri
    else if present(r.uri.value[|SCHEME|..]) then Present
    else ToDelete
  }

  function StreamVerdict(lines: seq<Line>, present: string -> bool): Option<Verdict> {
    if Crash in Effects(lines) then None else Some(VerdictOf(Fold(Effects(lines)), present))
  }

  /** A stream to delete: where its file should be, and its name. */
  datatype Summary = Summary(stream: nat, storageUri: string, path: string, name: string)

  datatype Tally = Tally(scanned: nat, noStorageUri: nat, archived: nat, present: nat, toDelete: seq<Summary>)

  // ----- What a line says -----

  predicate TypedAs(line: Line, kind: string) {
    line.Event? && line.value.Obj? && "type" in line.value.fields && line.value.fields["type"] == Str(kind)
  }

  /** The payload has this string in this field. */
  predicate Carries(line: Line, field: string, s: string) {
    && line.Event? && line.value.Obj? && "payload" in line.value.fields && line.value.fields["payload"].Obj?
    && field in line.value.fields["payload"].fields && line.value.fields["payload"].fields[field] == Str(s)
  }

  predicate Creates(line: Line) {
    TypedAs(line, "yield:created") || TypedAs(line, "yield:cloned")
  }

  /** The line puts the resource at this location. */
  predicate Locates(line: Line, uri: string) {
    || (Creates(line) && Carries(line, "storageUri", uri))
    || (TypedAs(line, "yield:moved") && Carries(line, "toUri", uri))
  }

  predicate Names(line: Line, name: string) {
    Creates(line) && Carries(line, "name", name)
  }

  ghost predicate Relocates(line: Line) {
    exists uri :: Locates(line, uri)
  }

  ghost predicate Renames(line: Line) {
    exists name :: Names(line, name)
  }

  predicate SaysArchived(line: Line) {
    TypedAs(line, "mark:archived")
  }

  predicate SaysUnarchived(line: Line) {
    TypedAs(line, "mark:unarchived")
  }

  predicate IsNullEvent(line: Line) {
    line == Event(Null)
  }

  // ----- What a stream says -----

  /** The last line that puts the resource anywhere puts it at this location. */
  ghost predicate EndsAt(lines: seq<Line>, uri: string) {
    exists i: nat :: i < |lines| && Locates(lines[i], uri) && forall j :: i < j < |lines| ==> !Relocates(lines[j])
  }

  ghost predicate Nowhere(lines: seq<Line>) {
    forall i :: 0 <= i < |lines| ==> !Relocates(lines[i])
  }

  /** The last line that names the resource gives it this name, or the name is empty and no line gives one. */
  ghost predicate EndsNamed(lines: seq<Line>, name: string) {
    || (exists i: nat :: i < |lines| && Names(lines[i], name) && forall j :: i < j < |lines| ==> !Renames(lines[j]))
    || (name == "" && forall i :: 0 <= i < |lines| ==> !Renames(lines[i]))
  }

  /** Of the lines that archive or unarchive, the last one archives. */
  ghost predicate EndsArchived(lines: seq<Line>) {
    exists i: nat :: ArchivesLast(lines, i)
  }

  predicate ArchivesLast(lines: seq<Line>, i: nat) {
    && i < |lines| && SaysArchived(lines[i])
    && forall j :: i < j < |lines| ==> !SaysArchived(lines[j]) && !SaysUnarchived(lines[j])
  }

  predicate Throws(lines: seq<Line>) {
    exists i :: 0 <= i < |lines| && IsNullEvent(lines[i])
  }

  /** The file the stream ends at is missing, and the resource is not archived: what the script deletes. */
  ghost predicate LostAt(lines: seq<Line>, path: string, present: string -> bool) {
    EndsAt(lines, "file://" + path) && !present(path) && !EndsArchived(lines)
  }

  ghost predicate Lost(lines: seq<Line>, present: string -> bool) {
    exists path :: LostAt(lines, path, present)
  }

  ghost predicate AtHome(lines: seq<Line>, present: string -> bool) {
    exists path :: EndsAt(lines, "file://" + path) && present(path) && !EndsArchived(lines)
  }

  ghost predicate Shelved(lines: seq<Line>) {
    EndsArchived(lines) && exists uri :: EndsAt(lines, uri) && uri != ""
  }

  /** No location, or an empty one, or one that is not a file and not archived. */
  ghost predicate Homeless(lines: seq<Line>) {
    || Nowhere(lines) || EndsAt(lines, "")
    || (!EndsArchived(lines) && exists uri :: EndsAt(lines, uri) && !("file://" <= uri))
  }

  // ----- One line more -----

  lemma LineMeans(line: Line)
    requires line.Event?
    ensures forall uri :: Locates(line, uri) <==> SetsUri(EffectOf(line.value)) == Some(uri)
    ensures SaysArchived(line) <==> EffectOf(line.value).Archive?
    ensures SaysUnarchived(line) <==> EffectOf(line.value).Unarchive?
    ensures IsNullEvent(line) <==> EffectOf(line.value).Crash?
  {}

  lemma LineNames(line: Line)
    requires line.Event?
    ensures forall name ::
      Names(line, name) <==> EffectOf(line.value).Store? && EffectOf(line.value).name == Some(name)
  {}

  lemma RelocatesIff(line: Line)
    requires line.Event?
    ensures Relocates(line) <==> SetsUri(EffectOf(line.value)) != None
  {
    LineMeans(line);
    if SetsUri(EffectOf(line.value)).Some? {
      assert Locates(line, SetsUri(EffectOf(line.value)).value);
    }
  }

  lemma RenamesIff(line: Line)
    requires line.Event?
    ensures Renames(line) <==> EffectOf(line.value).Store? && EffectOf(line.value).name.Some?
  {
    LineNames(line);
    if EffectOf(line.value).Store? && EffectOf(line.value).name.Some? {
      assert Names(line, EffectOf(line.value).name.value);
    }
  }

  lemma NotAnEventSaysNothing(line: Line)
    requires !line.Event?
    ensures !Relocates(line) && !Renames(line) && !SaysArchived(line) && !SaysUnarchived(line) && !IsNullEvent(line)
  {}

  lemma EndsAtSnoc(lines: seq<Line>, line: Line, uri: string)
    ensures EndsAt(lines + [line], uri) <==> Locates(line, uri) || (EndsAt(lines, uri) && !Relocates(line))
  {
    var all := lines + [line];
    assert all[|lines|] == line;
    if EndsAt(lines, uri) && !Relocates(line) {
      var i: nat :| i < |lines| && Locates(lines[i], uri) && forall j :: i < j < |lines| ==> !Relocates(lines[j]);
      assert Locates(all[i], uri) && forall j :: i < j < |all| ==> !Relocates(all[j]);
    }
    if EndsAt(all, uri) {
      var i: nat :| i < |all| && Locates(all[i], uri) && forall j :: i < j < |all| ==> !Relocates(all[j]);
      if i < |lines| {
        assert Locates(lines[i], uri) && forall j :: i < j < |lines| ==> all[j] == lines[j];
      }
    }
  }

  lemma NowhereSnoc(lines: seq<Line>, line: Line)
    ensures Nowhere(lines + [line]) <==> Nowhere(lines) && !Relocates(line)
  {
    var all := lines + [line];
    assert all[|lines|] == line && forall i :: 0 <= i < |lines| ==> all[i] == lines[i];
  }

  lemma EndsNamedSnoc(lines: seq<Line>, line: Line, name: string)
    ensures EndsNamed(lines + [line], name) <==> Names(line, name) || (EndsNamed(lines, name) && !Renames(line))
  {
    var all := lines + [line];
    assert all[|lines|] == line && forall i :: 0 <= i < |lines| ==> all[i] == lines[i];
    if i: nat :| i < |lines| && Names(lines[i], name) && forall j :: i < j < |lines| ==> !Renames(lines[j]) {
      assert Names(all[i], name);
      assert !Renames(line) ==> forall j :: i < j < |all| ==> !Renames(all[j]);
    }
    if i: nat :| i < |all| && Names(all[i], name) && forall j :: i < j < |all| ==> !Renames(all[j]) {
      assert i < |lines| ==> Names(lines[i], name) && !Renames(all[|lines|]);
    }
  }

  lemma EndsArchivedSnoc(lines: seq<Line>, line: Line)
    ensures EndsArchived(lines + [line]) <==>
      SaysArchived(line) || (EndsArchived(lines) && !SaysUnarchived(line))
  {
    var all := lines + [line];
    assert all[|lines|] == line && forall i :: 0 <= i < |lines| ==> all[i] == lines[i];
    if i: nat :| ArchivesLast(lines, i) {
      assert SaysArchived(all[i]) && (!SaysArchived(line) && !SaysUnarchived(line) ==> ArchivesLast(all, i));
    }
    if SaysArchived(line) {
      assert ArchivesLast(all, |lines|);
    }
    if i: nat :| ArchivesLast(all, i) {
      assert i < |lines| ==> ArchivesLast(lines, i);
    }
  }

  // ----- What the replay means -----

  /** The replay of a stream is where its lines end. */
  ghost predicate Means(r: Replay, lines: seq<Line>) {
    && (r.uri == None <==> Nowhere(lines))
    && (forall uri :: r.uri == Some(uri) <==> EndsAt(lines, uri))
    && (r.archived <==> EndsArchived(lines))
    && EndsNamed(lines, r.name)
  }

  lemma MeansSnoc(r: Replay, lines: seq<Line>, line: Line)
    requires Means(r, lines)
    ensures Means(if line.Event? then Step(r, EffectOf(line.value)) else r, lines + [line])
  {
    var r' := if line.Event? then Step(r, EffectOf(line.value)) else r;
    if line.Event? {
      LineMeans(line);
      LineNames(line);
      RelocatesIff(line);
      RenamesIff(line);
    } else {
      NotAnEventSaysNothing(line);
    }
    NowhereSnoc(lines, line);
    EndsArchivedSnoc(lines, line);
    EndsNamedSnoc(lines, line, r'.name);
    forall uri
      ensures r'.uri == Some(uri) <==> EndsAt(lines + [line], uri)
    {
      EndsAtSnoc(lines, line, uri);
    }
  }

  /** Location, archived flag and name are those the last lines that speak of them give. */
  lemma {:induction false} ReplayMeansTheLastWord(lines: seq<Line>)
    ensures Means(Fold(Effects(lines)), lines)
  {
    if lines != [] {
      var before, line := Front(lines), Last(lines);
      ReplayMeansTheLastWord(before);
      MeansSnoc(Fold(Effects(before)), before, line);
      assert lines == before + [line];
      EffectsSnoc(before, line);
    }
  }

  lemma EffectsSnoc(before: seq<Line>, line: Line)
    ensures Fold(Effects(before + [line]))
         == if line.Event? then Step(Fold(Effects(before)), EffectOf(line.value)) else Fold(Effects(before))
  {
    assert Front(before + [line]) == before;
    if line.Event? {
      FoldSnoc(Effects(before), EffectOf(line.value));
    } else {
      assert Effects(before) + [] == Effects(before);
    }
  }

  lemma {:induction false} ThrowsIff(lines: seq<Line>)
    ensures Crash in Effects(lines) <==> Throws(lines)
  {
    if lines != [] {
      var before, line := Front(lines), Last(lines);
      ThrowsIff(before);
      assert lines == before + [line];
      assert Throws(lines) <==> Throws(before) || IsNullEvent(line) by {
        assert lines[|before|] == line && forall i :: 0 <= i < |before| ==> lines[i] == before[i];
      }
      if line.Event? {
        LineMeans(line);
      } else {
        NotAnEventSaysNothing(line);
      }
    }
  }

  lemma FilePath(uri: string)
    requires "file://" <= uri
    ensures uri == "file://" + uri[7..]
  {}

  /** Each verdict, in terms of the lines alone. */
  lemma VerdictMeans(lines: seq<Line>, present: string -> bool)
    ensures StreamVerdict(lines, present) == None <==> Throws(lines)
    ensures !Throws(lines) ==>
      && (StreamVerdict(lines, present) == Some(ToDelete) <==> Lost(lines, present))
      && (StreamVerdict(lines, present) == Some(Present) <==> AtHome(lines, present))
      && (StreamVerdict(lines, present) == Some(KeptArchived) <==> Shelved(lines))
      && (StreamVerdict(lines, present) == Some(NoStorageUri) <==> Homeless(lines))
  {
    var r := Fold(Effects(lines));
    ThrowsIff(lines);
    ReplayMeansTheLastWord(lines);
    ReplayVerdictMeans(r, lines, present);
  }

  lemma ReplayVerdictMeans(r: Replay, lines: seq<Line>, present: string -> bool)
    requires Means(r, lines)
    ensures VerdictOf(r, present) == ToDelete <==> Lost(lines, present)
    ensures VerdictOf(r, present) == Present <==> AtHome(lines, present)
    ensures VerdictOf(r, present) == KeptArchived <==> Shelved(lines)
    ensures VerdictOf(r, present) == NoStorageUri <==> Homeless(lines)
    ensures VerdictOf(r, present) == ToDelete ==>
      "file://" <= r.uri.value && LostAt(lines, r.uri.value[7..], present)
  {
    if r.uri.Some? {
      assert EndsAt(lines, r.uri.value);
      if "file://" <= r.uri.value {
        FilePath(r.uri.value);
        assert EndsAt(lines, "file://" + r.uri.value[7..]);
      }
    }
    if VerdictOf(r, present) == ToDelete {
      assert LostAt(lines, r.uri.value[7..], present);
    }
    forall path | EndsAt(lines, "file://" + path)
      ensures r.uri == Some("file://" + path) && r.uri.value[7..] == path
    {}
  }

  // ----- The scan -----

  function Verdicts(streams: seq<seq<Line>>, present: string -> bool): (r: seq<Option<Verdict>>)
    ensures |r| == |streams| && forall i :: 0 <= i < |streams| ==> r[i] == StreamVerdict(streams[i], present)
  {
    seq(|streams|, i requires 0 <= i < |streams| => StreamVerdict(streams[i], present))
  }

  function Those(verdicts: seq<Option<Verdict>>, v: Verdict): set<nat> {
    set i: nat | i < |verdicts| && verdicts[i] == Some(v)
  }

  function Streams(toDelete: seq<Summary>): (r: seq<nat>)
    ensures |r| == |toDelete| && forall k :: 0 <= k < |r| ==> r[k] == toDelete[k].stream
  {
    seq(|toDelete|, k requires 0 <= k < |toDelete| => toDelete[k].stream)
  }

  predicate Increasing(s: seq<nat>) {
    forall i, j :: 0 <= i < j < |s| ==> s[i] < s[j]
  }

  /** The counters are those of the verdicts, and the streams to delete are listed in order. */
  predicate Tallies(tally: Tally, verdicts: seq<Option<Verdict>>) {
    && None !in verdicts && tally.scanned == |verdicts|
    && tally.noStorageUri == |Those(verdicts, NoStorageUri)|
    && tally.archived == |Those(verdicts, KeptArchived)|
    && tally.present == |Those(verdicts, Present)|
    && Increasing(Streams(tally.toDelete))
    && (set i | i in Streams(tally.toDelete)) == Those(verdicts, ToDelete)
  }

  lemma ThoseSnoc(verdicts: seq<Option<Verdict>>, x: Verdict, v: Verdict)
    ensures Those(verdicts + [Some(x)], v) == if x == v then Those(verdicts, v) + {|verdicts|} else Those(verdicts, v)
    ensures |verdicts| !in Those(verdicts, v)
  {
    var all := verdicts + [Some(x)];
    assert all[|verdicts|] == Some(x) && forall i :: 0 <= i < |verdicts| ==> all[i] == verdicts[i];
  }

  function Count(t: Tally, v: Verdict, r: Replay): Tally {
    match v
    case NoStorageUri => t.(scanned := t.scanned + 1, noStorageUri := t.noStorageUri + 1)
    case KeptArchived => t.(scanned := t.scanned + 1, archived := t.archived + 1)
    case Present => t.(scanned := t.scanned + 1, present := t.present + 1)
    case ToDelete => t.(scanned := t.scanned + 1, toDelete := t.toDelete + [SummaryOf(t.scanned, r)])
  }

  function SummaryOf(stream: nat, r: Replay): Summary {
    var uri := if r.uri.Some? then r.uri.value else "";
    Summary(stream, uri, if SCHEME <= uri then uri[|SCHEME|..] else uri, r.name)
  }

  lemma MarkedSnoc(toDelete: seq<Summary>, verdicts: seq<Option<Verdict>>, x: Summary)
    requires Increasing(Streams(toDelete)) && (set i | i in Streams(toDelete)) == Those(verdicts, ToDelete)
    requires x.stream == |verdicts|
    ensures Increasing(Streams(toDelete + [x]))
    ensures (set i | i in Streams(toDelete + [x])) == Those(verdicts, ToDelete) + {|verdicts|}
  {
    var s := Streams(toDelete);
    assert Streams(toDelete + [x]) == s + [x.stream];
    forall k | 0 <= k < |s|
      ensures s[k] < |verdicts|
    {
      assert s[k] in (set i | i in s);
      assert s[k] in Those(verdicts, ToDelete);
    }
    assert forall i :: i in s + [x.stream] <==> i in s || i == x.stream;
  }

  lemma TalliesSnoc(t: Tally, verdicts: seq<Option<Verdict>>, v: Verdict, r: Replay)
    requires Tallies(t, verdicts)
    ensures Tallies(Count(t, v, r), verdicts + [Some(v)])
  {
    ThoseSnoc(verdicts, v, NoStorageUri);
    ThoseSnoc(verdicts, v, KeptArchived);
    ThoseSnoc(verdicts, v, Present);
    ThoseSnoc(verdicts, v, ToDelete);
    if v.ToDelete? {
      MarkedSnoc(t.toDelete, verdicts, SummaryOf(t.scanned, r));
    }
  }

  /** What is reported of a stream to delete is where its lines end. */
  ghost predicate Describes(x: Summary, streams: seq<seq<Line>>, present: string -> bool) {
    && x.stream < |streams| && x.storageUri == "file://" + x.path
    && LostAt(streams[x.stream], x.path, present) && EndsNamed(streams[x.stream], x.name)
  }

  /** The whole report, in terms of the lines of the streams alone. */
  ghost predicate Reports(tally: Tally, streams: seq<seq<Line>>, present: string -> bool) {
    && tally.scanned == |streams|
    && tally.noStorageUri == |set i: nat | i < |streams| && Homeless(streams[i])|
    && tally.archived == |set i: nat | i < |streams| && Shelved(streams[i])|
    && tally.present == |set i: nat | i < |streams| && AtHome(streams[i], present)|
    && Increasing(Streams(tally.toDelete))
    && (forall i: nat :: i in Streams(tally.toDelete) <==> i < |streams| && Lost(streams[i], present))
    && (forall k :: 0 <= k < |tally.toDelete| ==> Describes(tally.toDelete[k], streams, present))
  }

  lemma SummaryDescribes(streams: seq<seq<Line>>, present: string -> bool, i: nat)
    requires i < |streams| && StreamVerdict(streams[i], present) == Some(ToDelete)
    ensures Describes(SummaryOf(i, Fold(Effects(streams[i]))), streams, present)
  {
    var r := Fold(Effects(streams[i]));
    ReplayMeansTheLastWord(streams[i]);
    ReplayVerdictMeans(r, streams[i], present);
    FilePath(r.uri.value);
  }

  lemma TalliesReport(tally: Tally, streams: seq<seq<Line>>, present: string -> bool)
    requires Tallies(tally, Verdicts(streams, present))
    requires forall k :: 0 <= k < |tally.toDelete| ==> Describes(tally.toDelete[k], streams, present)
    ensures Reports(tally, streams, present)
  {
    var verdicts := Verdicts(streams, present);
    ThoseMean(streams, present);
    forall i: nat
      ensures i in Streams(tally.toDelete) <==> i in Those(verdicts, ToDelete)
    {
      assert i in Streams(tally.toDelete) <==> i in (set j | j in Streams(tally.toDelete));
    }
  }

  lemma ThoseMean(streams: seq<seq<Line>>, present: string -> bool)
    requires None !in Verdicts(streams, present)
    ensures var verdicts := Verdicts(streams, present);
      && Those(verdicts, NoStorageUri) == (set i: nat | i < |streams| && Homeless(streams[i]))
      && Those(verdicts, KeptArchived) == (set i: nat | i < |streams| && Shelved(streams[i]))
      && Those(verdicts, Present) == (set i: nat | i < |streams| && AtHome(streams[i], present))
      && Those(verdicts, ToDelete) == (set i: nat | i < |streams| && Lost(streams[i], present))
  {
    var verdicts := Verdicts(streams, present);
    forall i: nat | i < |streams|
      ensures verdicts[i] == Some(NoStorageUri) <==> Homeless(streams[i])
      ensures verdicts[i] == Some(KeptArchived) <==> Shelved(streams[i])
      ensures verdicts[i] == Some(Present) <==> AtHome(streams[i], present)
      ensures verdicts[i] == Some(ToDelete) <==> Lost(streams[i], present)
    {
      assert verdicts[i] != None;
      VerdictMeans(streams[i], present);
    }
  }

  lemma NoneThrows(streams: seq<seq<Line>>, present: string -> bool)
    ensures None in Verdicts(streams, present) <==> exists i :: 0 <= i < |streams| && Throws(streams[i])
  {
    forall i | 0 <= i < |streams|
      ensures Verdicts(streams, present)[i] == None <==> Throws(streams[i])
    {
      VerdictMeans(streams[i], present);
    }
    if i :| 0 <= i < |streams| && Throws(streams[i]) {
      assert Verdicts(streams, present)[i] == None;
    }
  }

  /** The first streams are tallied, and those to delete are described. */
  ghost predicate TalliedSoFar(t: Tally, streams: seq<seq<Line>>, present: string -> bool, n: nat)
    requires n <= |streams|
  {
    && Tallies(t, Verdicts(streams, present)[..n])
    && forall k :: 0 <= k < |t.toDelete| ==> Describes(t.toDelete[k], streams, present)
  }

  lemma OneStreamMore(t: Tally, streams: seq<seq<Line>>, present: string -> bool, n: nat, v: Verdict)
    requires n < |streams| && TalliedSoFar(t, streams, present, n)
    requires StreamVerdict(streams[n], present) == Some(v)
    ensures TalliedSoFar(Count(t, v, Fold(Effects(streams[n]))), streams, present, n + 1)
  {
    var verdicts, r := Verdicts(streams, present), Fold(Effects(streams[n]));
    assert verdicts[..n + 1] == verdicts[..n] + [Some(v)];
    TalliesSnoc(t, verdicts[..n], v, r);
    if v.ToDelete? {
      SummaryDescribes(streams, present, n);
    }
  }

  lemma AllTallied(t: Tally, streams: seq<seq<Line>>, present: string -> bool)
    requires TalliedSoFar(t, streams, present, |streams|)
    ensures Reports(t, streams, present) && None !in Verdicts(streams, present)
  {
    assert Verdicts(streams, present)[..|streams|] == Verdicts(streams, present);
    TalliesReport(t, streams, present);
  }

  /**
   * The scan throws exactly if some stream has a `null` line. Otherwise it lists, in order, exactly the streams
   * whose file is missing and that are not archived, and counts the others by what their lines say.
   */
  method Scan(streams: seq<seq<Line>>, present: string -> bool) returns (tally: Option<Tally>)
    ensures tally == None <==> exists i :: 0 <= i < |streams| && Throws(streams[i])
    ensures tally.Some? ==> Reports(tally.value, streams, present)
  {
    var t := Tally(0, 0, 0, 0, []);
    NoneThrows(streams, present);
    for i := 0 to |streams|
      invariant TalliedSoFar(t, streams, present, i)
    {
      var effects := ReadEvents(streams[i]);
      var r := ReplayEvents(effects);
      if r == None {
        assert Verdicts(streams, present)[i] == None;
        return None;
      }
      var verdict := Judge(r.value, present);
      OneStreamMore(t, streams, present, i, verdict);
      t := CountVerdict(t, verdict, r.value);
    }
    AllTallied(t, streams, present);
    tally := Some(t);
  }

  method CountVerdict(t0: Tally, verdict: Verdict, r: Replay) returns (t: Tally)
    ensures t == Count(t0, verdict, r)
  {
    t := t0.(scanned := t0.scanned + 1);
    match verdict {
      case NoStorageUri => t := t.(noStorageUri := t.noStorageUri + 1);
      case KeptArchived => t := t.(archived := t.archived + 1);
      case Present => t := t.(present := t.present + 1);
      case ToDelete => t := t.(toDelete := t.toDelete + [SummaryOf(t0.scanned, r)]);
    }
  }

  /** The chain of guards. */
  method Judge(r: Replay, present: string -> bool) returns (verdict: Verdict)
    ensures verdict == VerdictOf(r, present)
  {
    var storageUri := r.uri;
    if storageUri == None || storageUri.value == "" {
      return NoStorageUri;
    }
    if r.archived {
      return KeptArchived;
    }
    if !(SCHEME <= storageUri.value) {
      return NoStorageUri;
    }
    verdict := if present(storageUri.value[|SCHEME|..]) then Present else ToDelete;
  }

  /** Rewriting the log never changes what the cleanup decides about a stream. */
  lemma RewritingPreservesVerdict(lines: seq<Line>, present: string -> bool)
    requires AllKeepTheirEvents(lines)
    ensures StreamVerdict(Rewritten(lines), present)
         == if Crash in OriginalEffects(lines) then None else Some(VerdictOf(Fold(OriginalEffects(lines)), present))
  {
    RewritingPreservesReplay(lines);
  }
}
