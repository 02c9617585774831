/** The stored record: what `write` serializes, what `isCached` accepts, what `read` makes of it. */
module CacheEntry {
  import opened Prelude
  import opened PdfItems
  import opened LineCodec
  import opened JsonText

  /** An extraction outcome: a named decline, or text with its items and provenance fields (`method` and more). */
  datatype Outcome =
    | Declined(reason: Json)
    | Extracted(text: string, items: seq<Item>, provenance: seq<Field>)

  function Lookup(fields: seq<Field>, name: string): Option<Json> {
    if fields == [] then None
    else if fields[0].name == name then Some(fields[0].value)
    else Lookup(fields[1..], name)
  }

  const RESERVED: set<string> := {"v", "stamp", "text", "lines", "items", "declined"}

  /** What the outcome's static type promises of it. */
  predicate WellTyped(o: Outcome) {
    match o
    case Declined(reason) => reason.JStr?
    case Extracted(_, _, provenance) =>
      && (forall i :: 0 <= i < |provenance| ==> provenance[i].name !in RESERVED)
      && Lookup(provenance, "method").Some? && Lookup(provenance, "method").value.JStr?
  }

  // ----- Writing -----

  function WordJson(w: Word): Json {
    JArr([JNum(w.x), JNum(w.width), JNum(w.start), JNum(w.end)])
  }

  function WordsJson(words: seq<Word>): (js: seq<Json>)
    ensures |js| == |words| && forall i :: 0 <= i < |words| ==> js[i] == WordJson(words[i])
  {
    seq(|words|, i requires 0 <= i < |words| => WordJson(words[i]))
  }

  function LineJson(line: Line): Json {
    JObj([Field("p", JNum(line.p)), Field("y", JNum(line.y)), Field("h", JNum(line.h)),
          Field("words", JArr(WordsJson(line.words)))])
  }

  function LinesJson(lines: seq<Line>): (js: seq<Json>)
    ensures |js| == |lines| && forall i :: 0 <= i < |lines| ==> js[i] == LineJson(lines[i])
  {
    seq(|lines|, i requires 0 <= i < |lines| => LineJson(lines[i]))
  }

  function Body(o: Outcome): (fields: seq<Field>)
    ensures fields != []
  {
    match o
    case Declined(reason) => [Field("declined", reason)]
    case Extracted(text, items, provenance) =>
      [Field("text", JStr(text)), Field("lines", JArr(LinesJson(Encode(items))))] + provenance
  }

  function Header(version: real, stamp: string): seq<Field> {
    [Field("v", JNum(Fin(version))), Field("stamp", JStr(stamp))]
  }

  function EntryJson(stamp: string, o: Outcome): Json {
    JObj(Header(2.0, stamp) + Body(o))
  }

  // ----- Reading -----

  predicate HasNumber(fields: seq<Field>, name: string) {
    Lookup(fields, name).Some? && Lookup(fields, name).value.JNum?
  }

  predicate HasString(fields: seq<Field>, name: string) {
    Lookup(fields, name).Some? && Lookup(fields, name).value.JStr?
  }

  predicate HasArray(fields: seq<Field>, name: string) {
    Lookup(fields, name).Some? && Lookup(fields, name).value.JArr?
  }

  predicate IsWord(j: Json) {
    j.JArr? && |j.elems| == 4 && forall k :: 0 <= k < 4 ==> j.elems[k].JNum?
  }

  predicate IsLine(j: Json) {
    && j.JObj?
    && HasNumber(j.fields, "p") && HasNumber(j.fields, "y") && HasNumber(j.fields, "h")
    && HasArray(j.fields, "words")
    && AllWords(Lookup(j.fields, "words").value.elems)
  }

  predicate AllLines(js: seq<Json>) {
    forall i :: 0 <= i < |js| ==> IsLine(js[i])
  }

  predicate IsCached(v: Json) {
    && v.JObj?
    && Lookup(v.fields, "v") == Some(JNum(Fin(2.0)))
    && HasString(v.fields, "stamp")
    && (HasString(v.fields, "declined")
        || (&& HasString(v.fields, "text") && HasString(v.fields, "method") && HasArray(v.fields, "lines")
            && AllLines(Lookup(v.fields, "lines").value.elems)))
  }

  function WordOfJson(j: Json): Word
    requires IsWord(j)
  {
    Word(j.elems[0].n, j.elems[1].n, j.elems[2].n, j.elems[3].n)
  }

  function WordsOfJson(js: seq<Json>): (words: seq<Word>)
    requires AllWords(js)
    ensures |words| == |js| && forall i :: 0 <= i < |js| ==> words[i] == WordOfJson(js[i])
  {
    seq(|js|, i requires 0 <= i < |js| => WordOfJson(js[i]))
  }

  function LineOfJson(j: Json): Line
    requires IsLine(j)
  {
    Line(Lookup(j.fields, "p").value.n, Lookup(j.fields, "y").value.n, Lookup(j.fields, "h").value.n,
         WordsOfJson(Lookup(j.fields, "words").value.elems))
  }

  function LinesOfJson(js: seq<Json>): (lines: seq<Line>)
    requires AllLines(js)
    ensures |lines| == |js| && forall i :: 0 <= i < |js| ==> lines[i] == LineOfJson(js[i])
  {
    seq(|js|, i requires 0 <= i < |js| => LineOfJson(js[i]))
  }

  /** The record without the fields `read` takes out by name. */
  function Rest(fields: seq<Field>): seq<Field> {
    if fields == [] then []
    else (if fields[0].name in {"v", "stamp", "lines", "text"} then [] else [fields[0]]) + Rest(fields[1..])
  }

  function DecodeEntry(v: Json): Outcome
    requires IsCached(v)
  {
    var declined := Lookup(v.fields, "declined");
    if declined.Some? then Declined(declined.value)
    else Extracted(Lookup(v.fields, "text").value.s, Decode(LinesOfJson(Lookup(v.fields, "lines").value.elems)),
                   Rest(v.fields))
  }

  // ----- What survives -----

  predicate FiniteLine(line: Line) {
    && line.p.Fin? && line.y.Fin? && line.h.Fin?
    && forall i :: 0 <= i < |line.words| ==> FiniteWord(line.words[i])
  }

  predicate FiniteLines(lines: seq<Line>) {
    forall i :: 0 <= i < |lines| ==> FiniteLine(lines[i])
  }

  /** An outcome whose items JSON can carry: what was written of it passes the shape check. */
  predicate Readable(o: Outcome) {
    o.Declined? || AllFinite(o.items)
  }

  /** The outcome as it comes back: numbers in the provenance that are not finite are `null`. */
  function AsStored(o: Outcome): Outcome {
    match o
    case Declined(_) => o
    case Extracted(text, items, provenance) => Extracted(text, items, CarriedFields(provenance))
  }

  /** An outcome all of whose numbers JSON can carry. */
  predicate Storable(o: Outcome) {
    Readable(o) && (o.Extracted? ==> AllFieldsCarried(o.provenance))
  }

  lemma ComesBackWholeIff(o: Outcome)
    ensures Readable(o) ==> (AsStored(o) == o <==> Storable(o))
  {
    if o.Extracted? {
      FieldsUnchangedIff(o.provenance);
    }
  }

  lemma {:induction false} LookupCarried(fields: seq<Field>, name: string)
    ensures Lookup(CarriedFields(fields), name)
         == if Lookup(fields, name).Some? then Some(Carried(Lookup(fields, name).value)) else None
  {
    if fields != [] {
      LookupCarried(fields[1..], name);
    }
  }

  lemma {:induction false} CarriedAt(elems: seq<Json>, i: nat)
    requires i < |elems|
    ensures |CarriedAll(elems)| == |elems| && CarriedAll(elems)[i] == Carried(elems[i])
  {
    if elems != [] {
      if i > 0 {
        CarriedAt(elems[1..], i - 1);
      } else if |elems| > 1 {
        CarriedAt(elems[1..], 0);
      }
    }
  }

  lemma CarriedEach(elems: seq<Json>)
    ensures |CarriedAll(elems)| == |elems|
    ensures forall i :: 0 <= i < |elems| ==> CarriedAll(elems)[i] == Carried(elems[i])
  {
    if elems != [] {
      CarriedAt(elems, 0);
      forall i | 0 <= i < |elems|
        ensures CarriedAll(elems)[i] == Carried(elems[i])
      {
        CarriedAt(elems, i);
      }
    }
  }

  /** The first field of a name is the one looked up. */
  lemma {:induction false} LookupAt(fields: seq<Field>, k: nat)
    requires k < |fields| && forall i :: 0 <= i < k ==> fields[i].name != fields[k].name
    ensures Lookup(fields, fields[k].name) == Some(fields[k].value)
  {
    if k > 0 {
      LookupAt(fields[1..], k - 1);
    }
  }

  lemma LineLookups(line: Line)
    ensures var fields := LineJson(line).fields;
      && Lookup(fields, "p") == Some(JNum(line.p)) && Lookup(fields, "y") == Some(JNum(line.y))
      && Lookup(fields, "h") == Some(JNum(line.h))
      && Lookup(fields, "words") == Some(JArr(WordsJson(line.words)))
  {
    var fields := LineJson(line).fields;
    LookupAt(fields, 0);
    LookupAt(fields, 1);
    LookupAt(fields, 2);
    LookupAt(fields, 3);
  }

  lemma CarriedLineLookups(line: Line)
    ensures var fields := CarriedFields(LineJson(line).fields);
      && Lookup(fields, "p") == Some(Carried(JNum(line.p))) && Lookup(fields, "y") == Some(Carried(JNum(line.y)))
      && Lookup(fields, "h") == Some(Carried(JNum(line.h)))
      && Lookup(fields, "words") == Some(JArr(CarriedAll(WordsJson(line.words))))
  {
    LineLookups(line);
    LookupCarried(LineJson(line).fields, "p");
    LookupCarried(LineJson(line).fields, "y");
    LookupCarried(LineJson(line).fields, "h");
    LookupCarried(LineJson(line).fields, "words");
  }

  predicate FiniteWord(w: Word) {
    w.x.Fin? && w.width.Fin? && w.start.Fin? && w.end.Fin?
  }

  lemma WordSurvivesIff(w: Word)
    ensures IsWord(Carried(WordJson(w))) <==> FiniteWord(w)
    ensures FiniteWord(w) ==> WordOfJson(Carried(WordJson(w))) == w
  {
    CarriedEach(WordJson(w).elems);
    var e := CarriedAll(WordJson(w).elems);
    assert e[0] == Carried(JNum(w.x)) && e[1] == Carried(JNum(w.width));
    assert e[2] == Carried(JNum(w.start)) && e[3] == Carried(JNum(w.end));
  }

  predicate AllWords(js: seq<Json>) {
    forall i :: 0 <= i < |js| ==> IsWord(js[i])
  }

  lemma WordsSurviveIff(words: seq<Word>)
    ensures var js := CarriedAll(WordsJson(words));
      && (AllWords(js) <==> forall i :: 0 <= i < |words| ==> FiniteWord(words[i]))
      && (AllWords(js) ==> WordsOfJson(js) == words)
  {
    var js := CarriedAll(WordsJson(words));
    CarriedEach(WordsJson(words));
    forall i | 0 <= i < |words|
      ensures IsWord(js[i]) <==> FiniteWord(words[i])
      ensures FiniteWord(words[i]) ==> WordOfJson(js[i]) == words[i]
    {
      WordSurvivesIff(words[i]);
      assert js[i] == Carried(WordJson(words[i]));
    }
    if AllWords(js) {
      assert forall i :: 0 <= i < |words| ==> WordsOfJson(js)[i] == words[i];
    }
  }

  lemma LineSurvivesIff(line: Line)
    ensures IsLine(Carried(LineJson(line))) <==> FiniteLine(line)
    ensures FiniteLine(line) ==> LineOfJson(Carried(LineJson(line))) == line
  {
    CarriedLineLookups(line);
    WordsSurviveIff(line.words);
  }

  lemma LinesSurviveIff(lines: seq<Line>)
    ensures AllLines(CarriedAll(LinesJson(lines))) <==> FiniteLines(lines)
    ensures FiniteLines(lines) ==> LinesOfJson(CarriedAll(LinesJson(lines))) == lines
  {
    var js := CarriedAll(LinesJson(lines));
    CarriedEach(LinesJson(lines));
    forall i | 0 <= i < |lines|
      ensures IsLine(js[i]) <==> FiniteLine(lines[i])
      ensures FiniteLine(lines[i]) ==> LineOfJson(js[i]) == lines[i]
    {
      LineSurvivesIff(lines[i]);
      assert js[i] == Carried(LineJson(lines[i]));
    }
    if FiniteLines(lines) {
      assert forall i :: 0 <= i < |lines| ==> LinesOfJson(js)[i] == lines[i];
    }
  }

  lemma {:induction false} FiniteLinesIff(lines: seq<Line>)
    requires forall i :: 0 <= i < |lines| ==> lines[i].words != []
    ensures FiniteLines(lines) <==> AllFinite(Decode(lines))
    decreases |lines|
  {
    if lines != [] {
      var before, line := Front(lines), Last(lines);
      FiniteLinesIff(before);
      assert FiniteLines(lines) <==> FiniteLines(before) && FiniteLine(line);
      FiniteLineIff(line);
      AllFiniteAppend(Decode(before), ItemsOf(line));
    }
  }

  lemma AllFiniteAppend(a: seq<Item>, b: seq<Item>)
    ensures AllFinite(a + b) <==> AllFinite(a) && AllFinite(b)
  {
    forall i | 0 <= i < |a|
      ensures (a + b)[i] == a[i]
    {}
    forall i | 0 <= i < |b|
      ensures (a + b)[|a| + i] == b[i]
    {}
  }

  lemma FiniteLineIff(line: Line)
    requires line.words != []
    ensures FiniteLine(line) <==> AllFinite(ItemsOf(line))
  {
    var items := ItemsOf(line);
    if AllFinite(items) {
      assert items[0].Finite();
      forall i | 0 <= i < |line.words|
        ensures FiniteWord(line.words[i])
      {
        assert items[i].Finite();
      }
    }
  }

  lemma {:induction false} LookupSkips(before: seq<Field>, fields: seq<Field>, name: string)
    requires forall i :: 0 <= i < |before| ==> before[i].name != name
    ensures Lookup(before + fields, name) == Lookup(fields, name)
  {
    if before == [] {
      assert before + fields == fields;
    } else {
      assert (before + fields)[1..] == before[1..] + fields;
      LookupSkips(before[1..], fields, name);
    }
  }

  lemma {:induction false} LookupMisses(fields: seq<Field>, name: string)
    requires forall i :: 0 <= i < |fields| ==> fields[i].name != name
    ensures Lookup(fields, name) == None
  {
    if fields != [] {
      LookupMisses(fields[1..], name);
    }
  }

  lemma HeaderLookups(version: real, stamp: string, rest: seq<Field>)
    ensures var fields := CarriedFields(Header(version, stamp) + rest);
      Lookup(fields, "v") == Some(JNum(Fin(version))) && Lookup(fields, "stamp") == Some(JStr(stamp))
  {
    var fields := Header(version, stamp) + rest;
    assert fields[0] == Field("v", JNum(Fin(version))) && fields[1..][0] == Field("stamp", JStr(stamp));
    LookupCarried(fields, "v");
    LookupCarried(fields, "stamp");
  }

  lemma ExtractedLookups(stamp: string, o: Outcome)
    requires o.Extracted? && WellTyped(o)
    ensures var fields := EntryJson(stamp, o).fields;
      && Lookup(fields, "text") == Some(JStr(o.text))
      && Lookup(fields, "lines") == Some(JArr(LinesJson(Encode(o.items))))
      && Lookup(fields, "declined") == None
      && HasString(fields, "method")
  {
    var fields := EntryJson(stamp, o).fields;
    EntryFields(stamp, o);
    LookupAt(fields, 2);
    LookupAt(fields, 3);
    LookupSkips(EntryHead(stamp, o), o.provenance, "method");
    LookupSkips(EntryHead(stamp, o), o.provenance, "declined");
    forall i | 0 <= i < |o.provenance|
      ensures o.provenance[i].name != "declined"
    {
      assert "declined" in RESERVED;
    }
    LookupMisses(o.provenance, "declined");
  }

  lemma CarriedExtractedLookups(stamp: string, o: Outcome)
    requires o.Extracted? && WellTyped(o)
    ensures var fields := CarriedFields(EntryJson(stamp, o).fields);
      && Lookup(fields, "text") == Some(JStr(o.text))
      && Lookup(fields, "lines") == Some(JArr(CarriedAll(LinesJson(Encode(o.items)))))
      && Lookup(fields, "declined") == None
      && HasString(fields, "method")
  {
    ExtractedLookups(stamp, o);
    LookupCarried(EntryJson(stamp, o).fields, "text");
    LookupCarried(EntryJson(stamp, o).fields, "lines");
    LookupCarried(EntryJson(stamp, o).fields, "declined");
    LookupCarried(EntryJson(stamp, o).fields, "method");
  }

  /** The four fields that come first. */
  function EntryHead(stamp: string, o: Outcome): (head: seq<Field>)
    requires o.Extracted?
    ensures |head| == 4 && head[0].name == "v" && head[1].name == "stamp"
    ensures head[2] == Field("text", JStr(o.text)) && head[3] == Field("lines", JArr(LinesJson(Encode(o.items))))
  {
    [Field("v", JNum(Fin(2.0))), Field("stamp", JStr(stamp)), Field("text", JStr(o.text)),
     Field("lines", JArr(LinesJson(Encode(o.items))))]
  }

  lemma EntryFields(stamp: string, o: Outcome)
    requires o.Extracted?
    ensures EntryJson(stamp, o).fields == EntryHead(stamp, o) + o.provenance
  {}

  lemma DeclinedLookups(stamp: string, reason: Json)
    requires reason.JStr?
    ensures Lookup(CarriedFields(EntryJson(stamp, Declined(reason)).fields), "declined") == Some(reason)
  {
    LookupSkips(Header(2.0, stamp), Body(Declined(reason)), "declined");
    LookupCarried(EntryJson(stamp, Declined(reason)).fields, "declined");
  }

  lemma {:induction false} RestKeeps(fields: seq<Field>)
    requires forall i :: 0 <= i < |fields| ==> fields[i].name !in RESERVED
    ensures Rest(fields) == fields
  {
    if fields != [] {
      assert fields[0].name !in RESERVED;
      RestKeeps(fields[1..]);
      assert [fields[0]] + fields[1..] == fields;
    }
  }

  lemma {:induction false} RestAppend(a: seq<Field>, b: seq<Field>)
    ensures Rest(a + b) == Rest(a) + Rest(b)
  {
    if a == [] {
      assert a + b == b;
    } else {
      assert (a + b)[1..] == a[1..] + b;
      RestAppend(a[1..], b);
    }
  }

  lemma RestOfEntry(stamp: string, o: Outcome)
    requires o.Extracted? && WellTyped(o)
    ensures Rest(EntryJson(stamp, o).fields) == o.provenance
  {
    var head := EntryHead(stamp, o);
    EntryFields(stamp, o);
    RestAppend(head, o.provenance);
    RestKeeps(o.provenance);
    RestDrops(head);
  }

  lemma {:induction false} RestDrops(fields: seq<Field>)
    requires forall i :: 0 <= i < |fields| ==> fields[i].name in {"v", "stamp", "lines", "text"}
    ensures Rest(fields) == []
  {
    if fields != [] {
      assert fields[0].name in {"v", "stamp", "lines", "text"};
      RestDrops(fields[1..]);
    }
  }

  lemma {:induction false} RestCarried(fields: seq<Field>)
    ensures Rest(CarriedFields(fields)) == CarriedFields(Rest(fields))
  {
    if fields != [] {
      var rest := Rest(fields[1..]);
      RestCarried(fields[1..]);
      assert ([fields[0]] + rest)[1..] == rest && [] + rest == rest;
    }
  }

  lemma StoredLinesIff(items: seq<Item>)
    ensures AllLines(CarriedAll(LinesJson(Encode(items)))) <==> AllFinite(items)
    ensures AllFinite(items) ==> LinesOfJson(CarriedAll(LinesJson(Encode(items)))) == Encode(items)
  {
    LinesSurviveIff(Encode(items));
    EncodeIsCanonical(items);
    FiniteLinesIff(Encode(items));
    RoundTrip(items);
  }

  /** What is read back of a written record passes the shape check exactly when all numbers of its items are finite. */
  lemma WrittenEntryIsCachedIff(stamp: string, o: Outcome)
    requires WellTyped(o)
    ensures IsCached(Carried(EntryJson(stamp, o))) <==> Readable(o)
  {
    HeaderLookups(2.0, stamp, Body(o));
    match o
    case Declined(reason) =>
      DeclinedLookups(stamp, reason);
    case Extracted(_, items, _) =>
      CarriedExtractedLookups(stamp, o);
      StoredLinesIff(items);
  }

  /** A record that passes gives the outcome back, and exactly the whole of it if its provenance is finite as well. */
  lemma WrittenEntryDecodes(stamp: string, o: Outcome)
    requires WellTyped(o) && Readable(o)
    ensures IsCached(Carried(EntryJson(stamp, o)))
    ensures DecodeEntry(Carried(EntryJson(stamp, o))) == AsStored(o)
    ensures DecodeEntry(Carried(EntryJson(stamp, o))) == o <==> Storable(o)
  {
    WrittenEntryIsCachedIff(stamp, o);
    ComesBackWholeIff(o);
    match o
    case Declined(reason) =>
      DeclinedLookups(stamp, reason);
    case Extracted(_, items, _) =>
      CarriedExtractedLookups(stamp, o);
      StoredLinesIff(items);
      RoundTrip(items);
      RestOfEntry(stamp, o);
      RestCarried(EntryJson(stamp, o).fields);
  }

  // ----- The bounded prefix -----

  /** What `list` compares: the record's opening, up to and including the comma after the stamp. */
  function Prefix(stamp: string): Text {
    Front(Stringify(JObj(Header(2.0, stamp)))) + [Ch(',')]
  }

  function Opening(version: real): Text {
    [Ch('{')] + Quote("v") + [Ch(':'), Lit(version), Ch(',')] + Quote("stamp") + [Ch(':')]
  }

  lemma FieldsCons(f: Field, fields: seq<Field>)
    requires fields != []
    ensures StringifyFields([f] + fields) == StringifyField(f) + [Ch(',')] + StringifyFields(fields)
  {
    assert ([f] + fields)[1..] == fields;
  }

  /** The same pieces, bracketed as a header followed by the rest. */
  lemma Regroup(open: Text, v: Text, n: Text, s: Text, q: Text, tail: Text)
    ensures open + ((v + [Ch(':')] + n) + [Ch(',')] + ((s + [Ch(':')] + q) + tail))
         == (open + v + ([Ch(':')] + n + [Ch(',')]) + s + [Ch(':')]) + (q + tail)
  {}

  lemma HeaderFieldTexts(version: real, stamp: string)
    ensures StringifyField(Field("v", JNum(Fin(version)))) == Quote("v") + [Ch(':')] + [Lit(version)]
    ensures StringifyField(Field("stamp", JStr(stamp))) == Quote("stamp") + [Ch(':')] + Quote(stamp)
  {}

  lemma OpeningText(version: real)
    ensures Opening(version)
         == [Ch('{')] + Quote("v") + ([Ch(':')] + [Lit(version)] + [Ch(',')]) + Quote("stamp") + [Ch(':')]
  {
    assert [Ch(':')] + [Lit(version)] + [Ch(',')] == [Ch(':'), Lit(version), Ch(',')];
  }

  lemma HeaderText(version: real, stamp: string, rest: seq<Field>)
    requires rest != []
    ensures Stringify(JObj(Header(version, stamp) + rest))
         == Opening(version) + (Quote(stamp) + ([Ch(',')] + StringifyFields(rest) + [Ch('}')]))
  {
    var v, s := Field("v", JNum(Fin(version))), Field("stamp", JStr(stamp));
    assert Header(version, stamp) + rest == [v] + ([s] + rest);
    FieldsCons(v, [s] + rest);
    FieldsCons(s, rest);
    CloseLate([Ch('{')], StringifyField(v), StringifyField(s), StringifyFields(rest));
    HeaderFieldTexts(version, stamp);
    Regroup([Ch('{')], Quote("v"), [Lit(version)], Quote("stamp"), Quote(stamp),
            [Ch(',')] + StringifyFields(rest) + [Ch('}')]);
    OpeningText(version);
  }

  lemma CloseLate(open: Text, v: Text, s: Text, rest: Text)
    ensures open + (v + [Ch(',')] + (s + [Ch(',')] + rest)) + [Ch('}')]
         == open + (v + [Ch(',')] + (s + ([Ch(',')] + rest + [Ch('}')])))
  {}

  lemma FrontOfClosed(open: Text, inner: Text, close: Sym)
    ensures Front(open + inner + [close]) == open + inner
  {}

  lemma CommaLate(open: Text, v: Text, s: Text)
    ensures open + (v + [Ch(',')] + s) + [Ch(',')] == open + (v + [Ch(',')] + (s + [Ch(',')]))
  {}

  lemma PrefixText(stamp: string)
    ensures Prefix(stamp) == Opening(2.0) + (Quote(stamp) + [Ch(',')])
  {
    var v, s := Field("v", JNum(Fin(2.0))), Field("stamp", JStr(stamp));
    assert Header(2.0, stamp) == [v] + [s];
    FieldsCons(v, [s]);
    FrontOfClosed([Ch('{')], StringifyFields(Header(2.0, stamp)), Ch('}'));
    CommaLate([Ch('{')], StringifyField(v), StringifyField(s));
    HeaderFieldTexts(2.0, stamp);
    Regroup([Ch('{')], Quote("v"), [Lit(2.0)], Quote("stamp"), Quote(stamp), [Ch(',')]);
    OpeningText(2.0);
  }

  /** Two opening sequences of one text agree on the version. */
  lemma OpeningsAgree(a: real, b: real, restA: Text, restB: Text)
    requires Opening(a) + restA == Opening(b) + restB
    ensures a == b && restA == restB
  {
    var at := |Quote("v")| + 2;
    assert (Opening(a) + restA)[at] == Opening(a)[at] == Lit(a);
    assert (Opening(b) + restB)[at] == Opening(b)[at] == Lit(b);
    assert (Opening(a) + restA)[|Opening(a)|..] == restA;
  }

  lemma Associate(a: Text, b: Text, c: Text, d: Text)
    ensures (a + (b + c)) + d == a + (b + (c + d))
  {}

  lemma PrefixReveals(current: string, version: real, stamp: string, body: Text, file: Text)
    requires file == Opening(version) + (Quote(stamp) + ([Ch(',')] + body))
    requires Opening(2.0) + (Quote(current) + [Ch(',')]) <= file
    ensures version == 2.0 && stamp == current
  {
    var quoted := Quote(current) + [Ch(',')];
    var more := file[|Opening(2.0) + quoted|..];
    assert file == (Opening(2.0) + quoted) + more;
    Associate(Opening(2.0), Quote(current), [Ch(',')], more);
    OpeningsAgree(2.0, version, Quote(current) + ([Ch(',')] + more), Quote(stamp) + ([Ch(',')] + body));
    QuotesArePrefixFree(stamp, current, [Ch(',')] + body, [Ch(',')] + more);
  }

  lemma PrefixMatches(stamp: string, body: Text)
    ensures Opening(2.0) + (Quote(stamp) + [Ch(',')]) <= Opening(2.0) + (Quote(stamp) + ([Ch(',')] + body))
  {
    assert Opening(2.0) + (Quote(stamp) + ([Ch(',')] + body)) == Opening(2.0) + (Quote(stamp) + [Ch(',')]) + body;
  }

  /** The bounded comparison sees exactly the version and the stamp, whatever the two strings contain. */
  lemma PrefixDecides(current: string, version: real, stamp: string, rest: seq<Field>)
    requires rest != []
    ensures Prefix(current) <= Stringify(JObj(Header(version, stamp) + rest)) <==> version == 2.0 && stamp == current
  {
    var file := Stringify(JObj(Header(version, stamp) + rest));
    var body := StringifyFields(rest) + [Ch('}')];
    HeaderText(version, stamp, rest);
    PrefixText(current);
    assert [Ch(',')] + StringifyFields(rest) + [Ch('}')] == [Ch(',')] + body;
    if Prefix(current) <= file {
      PrefixReveals(current, version, stamp, body, file);
    }
    if version == 2.0 && stamp == current {
      PrefixMatches(stamp, body);
    }
  }
}
