/** The text layout of one recognised image, and the offsets of its words: `assemblePage`. */
module OcrAssembly {
  import opened Prelude
  import opened Strings

  datatype BBox = BBox(x0: real, y0: real, x1: real, y1: real)
  datatype WordBox = WordBox(text: string, confidence: real, bbox: BBox)
  datatype OcrLine = OcrLine(bbox: BBox, words: seq<WordBox>)
  datatype Paragraph = Paragraph(lines: seq<OcrLine>)
  datatype Block = Block(paragraphs: seq<Paragraph>)

  datatype OcrWord = OcrWord(text: string, start: nat, end: nat, bbox: BBox, confidence: real)
  datatype OcrPage = OcrPage(text: string, words: seq<OcrWord>)

  /** Where in the tree a word was read: paragraphs are numbered through the page, lines through a paragraph. */
  datatype Place = Place(paragraph: nat, line: nat)

  /** The assembler's variables (`text`, `words`, `wroteWord`) and the place of every word written so far. */
  datatype Layout = Layout(text: string, words: seq<OcrWord>, wrote: bool, places: seq<Place>)

  const BLANK := Layout("", [], false, [])

  function Paragraphs(blocks: seq<Block>): seq<Paragraph> {
    if blocks == [] then [] else Paragraphs(Front(blocks)) + Last(blocks).paragraphs
  }

  /** Horizontal extent from the word, vertical extent from its line. */
  function BoxOn(line: OcrLine, word: WordBox): BBox {
    BBox(word.bbox.x0, line.bbox.y0, word.bbox.x1, line.bbox.y1)
  }

  function PutWord(l: Layout, line: OcrLine, word: WordBox, place: Place): Layout {
    var value := Trim(word.text);
    if value == [] then l
    else
      var text := if l.wrote then l.text + " " else l.text;
      Layout(text + value,
             l.words + [OcrWord(value, |text|, |text + value|, BoxOn(line, word), word.confidence)],
             true,
             l.places + [place])
  }

  function PutWords(l: Layout, line: OcrLine, words: seq<WordBox>, place: Place): Layout {
    if words == [] then l.(wrote := false)
    else PutWord(PutWords(l, line, Front(words), place), line, Last(words), place)
  }

  function EndLine(l: Layout): Layout {
    if l.wrote then l.(text := l.text + "\n", wrote := false) else l
  }

  function PutLines(l: Layout, lines: seq<OcrLine>, paragraph: nat): Layout {
    if lines == [] then l.(wrote := false)
    else
      var line := Last(lines);
      EndLine(PutWords(PutLines(l, Front(lines), paragraph), line, line.words, Place(paragraph, |lines| - 1)))
  }

  function EndParagraph(l: Layout): Layout {
    l.(text := l.text + "\n")
  }

  function PutParagraphs(paragraphs: seq<Paragraph>): Layout {
    if paragraphs == [] then BLANK
    else EndParagraph(PutLines(PutParagraphs(Front(paragraphs)), Last(paragraphs).lines, |paragraphs| - 1))
  }

  function Tree(blocks: Option<seq<Block>>): seq<Paragraph> {
    Paragraphs(if blocks.Some? then blocks.value else [])
  }

  function Assemble(blocks: Option<seq<Block>>): OcrPage {
    var l := PutParagraphs(Tree(blocks));
    OcrPage(TrimEnd(l.text), l.words)
  }

  method AssemblePage(blocks: Option<seq<Block>>) returns (page: OcrPage)
    ensures page == Assemble(blocks)
  {
    var text, words := "", [];
    ghost var l := BLANK;
    var all := if blocks.Some? then blocks.value else [];
    for b := 0 to |all|
      invariant l == PutParagraphs(Paragraphs(all[..b]))
      invariant text == l.text && words == l.words
    {
      text, words, l := AssembleBlock(text, words, all[b].paragraphs, l, Paragraphs(all[..b]));
      assert Front(all[..b + 1]) == all[..b];
    }
    assert all[..|all|] == all;
    page := OcrPage(TrimEnd(text), words);
  }

  /** One turn of the block loop: paragraphs `before` are already laid out. */
  method AssembleBlock(text0: string, words0: seq<OcrWord>, paragraphs: seq<Paragraph>,
                       ghost l0: Layout, ghost before: seq<Paragraph>)
    returns (text: string, words: seq<OcrWord>, ghost l: Layout)
    requires l0 == PutParagraphs(before) && text0 == l0.text && words0 == l0.words
    ensures l == PutParagraphs(before + paragraphs)
    ensures text == PutParagraphs(before + paragraphs).text && words == PutParagraphs(before + paragraphs).words
  {
    text, words, l := text0, words0, l0;
    assert before + paragraphs[..0] == before;
    for p := 0 to |paragraphs|
      invariant l == PutParagraphs(before + paragraphs[..p])
      invariant text == l.text && words == l.words
    {
      text, words, l := AssembleParagraph(text, words, paragraphs[p].lines, l, |before| + p);
      assert Front(before + paragraphs[..p + 1]) == before + paragraphs[..p];
    }
    assert paragraphs[..|paragraphs|] == paragraphs;
  }

  /** One turn of the paragraph loop. */
  method AssembleParagraph(text0: string, words0: seq<OcrWord>, lines: seq<OcrLine>, ghost l0: Layout, ghost here: nat)
    returns (text: string, words: seq<OcrWord>, ghost l: Layout)
    requires text0 == l0.text && words0 == l0.words
    ensures l == EndParagraph(PutLines(l0, lines, here))
    ensures text == EndParagraph(PutLines(l0, lines, here)).text
    ensures words == EndParagraph(PutLines(l0, lines, here)).words
  {
    text, words := text0, words0;
    l := l0.(wrote := false);
    for i := 0 to |lines|
      invariant l == PutLines(l0, lines[..i], here)
      invariant text == l.text && words == l.words
    {
      text, words, l := AssembleLine(text, words, lines[i], l, Place(here, i));
      assert Front(lines[..i + 1]) == lines[..i];
    }
    assert lines[..|lines|] == lines;
    text := text + "\n";
    l := EndParagraph(l);
  }

  /** One turn of the line loop, the words of the line included. */
  method AssembleLine(text0: string, words0: seq<OcrWord>, line: OcrLine, ghost l0: Layout, ghost place: Place)
    returns (text: string, words: seq<OcrWord>, ghost l: Layout)
    requires text0 == l0.text && words0 == l0.words
    ensures l == EndLine(PutWords(l0, line, line.words, place))
    ensures text == EndLine(PutWords(l0, line, line.words, place)).text
    ensures words == EndLine(PutWords(l0, line, line.words, place)).words
  {
    text, words := text0, words0;
    var wroteWord := false;
    l := l0.(wrote := false);
    for i := 0 to |line.words|
      invariant l == PutWords(l0, line, line.words[..i], place)
      invariant text == l.text && words == l.words && wroteWord == l.wrote
    {
      var word := line.words[i];
      assert Front(line.words[..i + 1]) == line.words[..i];
      l := PutWord(l, line, word, place);
      var value := Trim(word.text);
      if value == [] {
        continue;
      }
      if wroteWord {
        text := text + " ";
      }
      var start := |text|;
      text := text + value;
      words := words + [OcrWord(value, start, |text|, BoxOn(line, word), word.confidence)];
      wroteWord := true;
    }
    assert line.words[..|line.words|] == line.words;
    l := EndLine(l);
    if wroteWord {
      text := text + "\n";
    }
  }

  // ----- Offsets and separators -----

  function Newlines(n: nat): string {
    seq(n, _ => '\n')
  }

  /** What separates a word from the one before it, as the tree alone determines it. */
  function Gap(last: Option<Place>, next: Place): string {
    match last
    case None => Newlines(next.paragraph)
    case Some(p) =>
      if p == next then " "
      else if p.paragraph <= next.paragraph then Newlines(1 + next.paragraph - p.paragraph)
      else []
  }

  function PlaceBefore(places: seq<Place>, i: nat): Option<Place>
    requires i <= |places|
  {
    if i == 0 then None else Some(places[i - 1])
  }

  function EndBefore(words: seq<OcrWord>, i: nat): nat
    requires i <= |words|
  {
    if i == 0 then 0 else words[i - 1].end
  }

  /** Word `i` is where its offsets say, and exactly its separator stands before it. */
  predicate WordAt(text: string, words: seq<OcrWord>, places: seq<Place>, i: nat)
    requires i < |words| == |places|
  {
    && Tight(words[i].text)
    && EndBefore(words, i) <= words[i].start < words[i].end <= |text|
    && text[words[i].start..words[i].end] == words[i].text
    && text[EndBefore(words, i)..words[i].start] == Gap(PlaceBefore(places, i), places[i])
    && (i > 0 ==> places[i - 1].paragraph <= places[i].paragraph)
  }

  predicate LaidOut(text: string, words: seq<OcrWord>, places: seq<Place>) {
    && |words| == |places|
    && forall i :: 0 <= i < |words| ==> WordAt(text, words, places, i)
  }

  /** The assembler's invariant while it stands at line `at` of the tree. */
  predicate Inv(l: Layout, at: Place) {
    && LaidOut(l.text, l.words, l.places)
    && var n := |l.words|;
    && EndBefore(l.words, n) <= |l.text|
    && var last := PlaceBefore(l.places, n);
    && var tail := l.text[EndBefore(l.words, n)..];
    && (last.Some? ==> last.value.paragraph <= at.paragraph)
    && (last.Some? && last.value.paragraph == at.paragraph ==> last.value.line <= at.line)
    && (if l.wrote then last == Some(at) && tail == [] else last != Some(at) && tail == Gap(last, at))
  }

  lemma LaidOutGrows(text: string, words: seq<OcrWord>, places: seq<Place>, more: string)
    requires LaidOut(text, words, places)
    ensures LaidOut(text + more, words, places)
  {
    forall i | 0 <= i < |words|
      ensures WordAt(text + more, words, places, i)
    {
      assert WordAt(text, words, places, i);
      assert (text + more)[words[i].start..words[i].end] == text[words[i].start..words[i].end];
      assert (text + more)[EndBefore(words, i)..words[i].start] == text[EndBefore(words, i)..words[i].start];
    }
  }

  lemma WordAtStays(text: string, words: seq<OcrWord>, places: seq<Place>, i: nat,
                    more: string, word: OcrWord, place: Place)
    requires i < |words| == |places| && WordAt(text, words, places, i)
    ensures WordAt(text + more, words + [word], places + [place], i)
  {
    assert (text + more)[words[i].start..words[i].end] == text[words[i].start..words[i].end];
    assert (text + more)[EndBefore(words, i)..words[i].start] == text[EndBefore(words, i)..words[i].start];
  }

  lemma NewWordAt(text: string, words: seq<OcrWord>, places: seq<Place>,
                  separator: string, word: OcrWord, at: Place)
    requires |words| == |places| && EndBefore(words, |words|) <= |text|
    requires Tight(word.text)
    requires word.start == |text + separator| && word.end == word.start + |word.text|
    requires text[EndBefore(words, |words|)..] + separator == Gap(PlaceBefore(places, |places|), at)
    requires |places| > 0 ==> Last(places).paragraph <= at.paragraph
    ensures WordAt(text + separator + word.text, words + [word], places + [at], |words|)
  {
    var e := EndBefore(words, |words|);
    var whole := text + separator + word.text;
    assert whole[e..word.start] == text[e..] + separator;
    assert whole[word.start..word.end] == word.text;
  }

  lemma LaidOutWithNewWord(text: string, words: seq<OcrWord>, places: seq<Place>,
                           separator: string, word: OcrWord, at: Place)
    requires LaidOut(text, words, places) && EndBefore(words, |words|) <= |text|
    requires Tight(word.text)
    requires word.start == |text + separator| && word.end == word.start + |word.text|
    requires text[EndBefore(words, |words|)..] + separator == Gap(PlaceBefore(places, |places|), at)
    requires |places| > 0 ==> Last(places).paragraph <= at.paragraph
    ensures LaidOut(text + separator + word.text, words + [word], places + [at])
  {
    var more := separator + word.text;
    assert text + separator + word.text == text + more;
    forall i | 0 <= i < |words| + 1
      ensures WordAt(text + more, words + [word], places + [at], i)
    {
      if i < |words| {
        assert WordAt(text, words, places, i);
        WordAtStays(text, words, places, i, more, word, at);
      } else {
        NewWordAt(text, words, places, separator, word, at);
      }
    }
  }

  lemma PutWordKeepsInv(l: Layout, line: OcrLine, word: WordBox, at: Place)
    requires Inv(l, at)
    ensures Inv(PutWord(l, line, word, at), at)
  {
    var value := Trim(word.text);
    if value != [] {
      var l' := PutWord(l, line, word, at);
      var n := |l.words|;
      var separator := if l.wrote then " " else "";
      assert l.text + separator == if l.wrote then l.text + " " else l.text;
      assert l.text[EndBefore(l.words, n)..] + separator == Gap(PlaceBefore(l.places, n), at);
      LaidOutWithNewWord(l.text, l.words, l.places, separator, l'.words[n], at);
    }
  }

  lemma {:induction false} PutWordsKeepsInv(l: Layout, line: OcrLine, words: seq<WordBox>, at: Place)
    requires Inv(l, at) && !l.wrote
    ensures Inv(PutWords(l, line, words, at), at)
  {
    if words != [] {
      PutWordsKeepsInv(l, line, Front(words), at);
      PutWordKeepsInv(PutWords(l, line, Front(words), at), line, Last(words), at);
    }
  }

  lemma EndLineKeepsInv(l: Layout, at: Place)
    requires Inv(l, at)
    ensures !EndLine(l).wrote && Inv(EndLine(l), at.(line := at.line + 1))
  {
    if l.wrote {
      LaidOutGrows(l.text, l.words, l.places, "\n");
      assert (l.text + "\n")[|l.text|..] == "\n" == Newlines(1);
    }
  }

  lemma EndParagraphKeepsInv(l: Layout, at: Place)
    requires Inv(l, at) && !l.wrote
    ensures Inv(EndParagraph(l), Place(at.paragraph + 1, 0))
  {
    var e := EndBefore(l.words, |l.words|);
    LaidOutGrows(l.text, l.words, l.places, "\n");
    assert (l.text + "\n")[e..] == l.text[e..] + "\n";
    var last := PlaceBefore(l.places, |l.words|);
    assert Gap(last, at) + "\n" == Gap(last, Place(at.paragraph + 1, 0));
  }

  lemma {:induction false} PutLinesKeepsInv(l: Layout, lines: seq<OcrLine>, paragraph: nat)
    requires Inv(l, Place(paragraph, 0)) && !l.wrote
    ensures !PutLines(l, lines, paragraph).wrote
    ensures Inv(PutLines(l, lines, paragraph), Place(paragraph, |lines|))
  {
    if lines != [] {
      PutLinesKeepsInv(l, Front(lines), paragraph);
      var l', line, at := PutLines(l, Front(lines), paragraph), Last(lines), Place(paragraph, |lines| - 1);
      PutWordsKeepsInv(l', line, line.words, at);
      EndLineKeepsInv(PutWords(l', line, line.words, at), at);
    }
  }

  lemma {:induction false} PutParagraphsKeepsInv(paragraphs: seq<Paragraph>)
    ensures !PutParagraphs(paragraphs).wrote
    ensures Inv(PutParagraphs(paragraphs), Place(|paragraphs|, 0))
  {
    if paragraphs != [] {
      PutParagraphsKeepsInv(Front(paragraphs));
      var l, lines, p := PutParagraphs(Front(paragraphs)), Last(paragraphs).lines, |paragraphs| - 1;
      PutLinesKeepsInv(l, lines, p);
      EndParagraphKeepsInv(PutLines(l, lines, p), Place(p, |lines|));
    }
  }

  /** The place of each word of the page. */
  function Places(blocks: Option<seq<Block>>): seq<Place> {
    PutParagraphs(Tree(blocks)).places
  }

  lemma GapIsNotEmpty(text: string, words: seq<OcrWord>, places: seq<Place>, j: nat)
    requires 0 < j < |words| == |places| && WordAt(text, words, places, j)
    ensures words[j - 1].end < words[j].start < words[j].end
  {
    assert Gap(PlaceBefore(places, j), places[j]) != [];
  }

  lemma {:induction false} EndsIncrease(text: string, words: seq<OcrWord>, places: seq<Place>, i: nat, j: nat)
    requires LaidOut(text, words, places) && i < j < |words|
    ensures words[i].end < words[j].start
    decreases j - i
  {
    assert WordAt(text, words, places, j);
    GapIsNotEmpty(text, words, places, j);
    if i < j - 1 {
      EndsIncrease(text, words, places, i, j - 1);
      assert WordAt(text, words, places, j - 1);
    }
  }

  lemma WordAtCut(text: string, words: seq<OcrWord>, places: seq<Place>, i: nat, e: nat)
    requires i < |words| == |places| && WordAt(text, words, places, i)
    requires words[i].end <= e <= |text|
    ensures WordAt(text[..e], words, places, i)
  {
    var w := words[i];
    assert text[..e][w.start..w.end] == text[w.start..w.end];
    assert text[..e][EndBefore(words, i)..w.start] == text[EndBefore(words, i)..w.start];
  }

  lemma LaidOutCut(text: string, words: seq<OcrWord>, places: seq<Place>)
    requires LaidOut(text, words, places) && EndBefore(words, |words|) <= |text|
    ensures LaidOut(text[..EndBefore(words, |words|)], words, places)
  {
    var e := EndBefore(words, |words|);
    forall i | 0 <= i < |words|
      ensures WordAt(text[..e], words, places, i)
    {
      WordEndsInside(text, words, places, i);
      WordAtCut(text, words, places, i, e);
    }
  }

  lemma WordEndsInside(text: string, words: seq<OcrWord>, places: seq<Place>, i: nat)
    requires LaidOut(text, words, places) && i < |words|
    ensures WordAt(text, words, places, i) && words[i].end <= EndBefore(words, |words|)
  {
    if i + 1 < |words| {
      EndsIncrease(text, words, places, i, |words| - 1);
    }
    assert WordAt(text, words, places, |words| - 1);
  }

  /**
   * After the final `trimEnd`: every offset is exact, words are not blank, the separator before each
   * word is the one the tree dictates, neighbours never touch, and nothing follows the last word.
   */
  lemma AssembledWordsAreExact(blocks: Option<seq<Block>>)
    ensures var page := Assemble(blocks);
      && LaidOut(page.text, page.words, Places(blocks))
      && |page.text| == EndBefore(page.words, |page.words|)
      && (forall i, j :: 0 <= i < j < |page.words| ==> page.words[i].end < page.words[j].start)
  {
    var l := PutParagraphs(Tree(blocks));
    PutParagraphsKeepsInv(Tree(blocks));
    LaidOutCut(l.text, l.words, l.places);
    forall i, j | 0 <= i < j < |l.words|
      ensures l.words[i].end < l.words[j].start
    {
      EndsIncrease(l.text, l.words, l.places, i, j);
    }
    var n := |l.words|;
    var e := EndBefore(l.words, n);
    assert l.text[..e] + l.text[e..] == l.text;
    if n > 0 {
      assert WordAt(l.text, l.words, l.places, n - 1);
      assert Last(l.text[l.words[n - 1].start..e]) == Last(l.text[..e]);
    }
    TrimEndSpec(l.text[..e], l.text[e..]);
  }

  // ----- Which words -----

  /** A recognised word and its place, without offsets. */
  datatype Reading = Reading(text: string, bbox: BBox, confidence: real, place: Place)

  function LineReadings(line: OcrLine, words: seq<WordBox>, place: Place): seq<Reading> {
    if words == [] then []
    else
      var value := Trim(words[0].text);
      (if value == [] then [] else [Reading(value, BoxOn(line, words[0]), words[0].confidence, place)])
      + LineReadings(line, words[1..], place)
  }

  function ParagraphReadings(lines: seq<OcrLine>, paragraph: nat, from: nat): seq<Reading> {
    if lines == [] then []
    else
      LineReadings(lines[0], lines[0].words, Place(paragraph, from))
      + ParagraphReadings(lines[1..], paragraph, from + 1)
  }

  /** The trimmed non-blank words of the tree, in traversal order. */
  function Readings(paragraphs: seq<Paragraph>, from: nat): seq<Reading> {
    if paragraphs == [] then []
    else ParagraphReadings(paragraphs[0].lines, from, 0) + Readings(paragraphs[1..], from + 1)
  }

  function Strip(l: Layout): seq<Reading>
    requires |l.words| == |l.places|
  {
    seq(|l.words|, i requires 0 <= i < |l.words| =>
      Reading(l.words[i].text, l.words[i].bbox, l.words[i].confidence, l.places[i]))
  }

  lemma {:induction false} LineReadingsSnoc(line: OcrLine, words: seq<WordBox>, place: Place)
    requires words != []
    ensures LineReadings(line, words, place)
         == LineReadings(line, Front(words), place) + LineReadings(line, [Last(words)], place)
  {
    if |words| > 1 {
      LineReadingsSnoc(line, words[1..], place);
      assert Front(words)[1..] == Front(words[1..]);
      assert Last(words[1..]) == Last(words);
    } else {
      assert words == [Last(words)];
    }
  }

  lemma {:induction false} PutWordsStrips(l: Layout, line: OcrLine, words: seq<WordBox>, place: Place)
    requires |l.words| == |l.places|
    ensures var l' := PutWords(l, line, words, place);
      |l'.words| == |l'.places| && Strip(l') == Strip(l) + LineReadings(line, words, place)
  {
    if words != [] {
      PutWordsStrips(l, line, Front(words), place);
      LineReadingsSnoc(line, words, place);
      PutWordStrips(PutWords(l, line, Front(words), place), line, Last(words), place);
    }
  }

  lemma PutWordStrips(l: Layout, line: OcrLine, word: WordBox, place: Place)
    requires |l.words| == |l.places|
    ensures var l' := PutWord(l, line, word, place);
      |l'.words| == |l'.places| && Strip(l') == Strip(l) + LineReadings(line, [word], place)
  {
    assert [word][1..] == [];
  }

  lemma FrontOfRest<T>(s: seq<T>)
    requires |s| > 1
    ensures Front(s)[1..] == Front(s[1..]) && Front(s)[0] == s[0] && Last(s[1..]) == Last(s)
  {}

  lemma Reassociate<T>(a: seq<T>, b: seq<T>, c: seq<T>)
    ensures a + (b + c) == (a + b) + c
  {}

  lemma {:induction false} ParagraphReadingsSnoc(lines: seq<OcrLine>, paragraph: nat, from: nat)
    requires lines != []
    ensures ParagraphReadings(lines, paragraph, from)
         == ParagraphReadings(Front(lines), paragraph, from)
          + LineReadings(Last(lines), Last(lines).words, Place(paragraph, from + |lines| - 1))
  {
    var last := LineReadings(Last(lines), Last(lines).words, Place(paragraph, from + |lines| - 1));
    if |lines| > 1 {
      var first := LineReadings(lines[0], lines[0].words, Place(paragraph, from));
      var rest := lines[1..];
      FrontOfRest(lines);
      ParagraphReadingsSnoc(rest, paragraph, from + 1);
      assert from + 1 + |rest| - 1 == from + |lines| - 1;
      assert ParagraphReadings(Front(lines), paragraph, from)
          == first + ParagraphReadings(Front(rest), paragraph, from + 1);
      assert ParagraphReadings(lines, paragraph, from) == first + ParagraphReadings(rest, paragraph, from + 1);
      Reassociate(first, ParagraphReadings(Front(rest), paragraph, from + 1), last);
    } else {
      assert lines == [lines[0]] && lines[1..] == [];
    }
  }

  lemma {:induction false} PutLinesStrips(l: Layout, lines: seq<OcrLine>, paragraph: nat)
    requires |l.words| == |l.places|
    ensures var l' := PutLines(l, lines, paragraph);
      |l'.words| == |l'.places| && Strip(l') == Strip(l) + ParagraphReadings(lines, paragraph, 0)
  {
    if lines != [] {
      PutLinesStrips(l, Front(lines), paragraph);
      PutWordsStrips(PutLines(l, Front(lines), paragraph), Last(lines), Last(lines).words,
                     Place(paragraph, |lines| - 1));
      ParagraphReadingsSnoc(lines, paragraph, 0);
    }
  }

  lemma ReadingsFirst(paragraphs: seq<Paragraph>, from: nat)
    requires paragraphs != []
    ensures Readings(paragraphs, from)
         == ParagraphReadings(paragraphs[0].lines, from, 0) + Readings(paragraphs[1..], from + 1)
  {}

  lemma {:induction false} ReadingsSnoc(paragraphs: seq<Paragraph>, from: nat)
    requires paragraphs != []
    ensures Readings(paragraphs, from)
         == Readings(Front(paragraphs), from) + ParagraphReadings(Last(paragraphs).lines, from + |paragraphs| - 1, 0)
  {
    ReadingsFirst(paragraphs, from);
    if |paragraphs| > 1 {
      var rest := paragraphs[1..];
      FrontOfRest(paragraphs);
      ReadingsFirst(Front(paragraphs), from);
      ReadingsSnoc(rest, from + 1);
      assert from + 1 + |rest| - 1 == from + |paragraphs| - 1;
      Reassociate(ParagraphReadings(paragraphs[0].lines, from, 0),
                  Readings(Front(rest), from + 1),
                  ParagraphReadings(Last(paragraphs).lines, from + |paragraphs| - 1, 0));
    } else {
      assert paragraphs[1..] == [] && Front(paragraphs) == [];
    }
  }

  /** The page's words are exactly the trimmed non-blank words of the tree, in order, each with its line's height. */
  lemma {:induction false} AssembledWordsAreTheReadings(paragraphs: seq<Paragraph>)
    ensures var l := PutParagraphs(paragraphs);
      |l.words| == |l.places| && Strip(l) == Readings(paragraphs, 0)
  {
    if paragraphs != [] {
      AssembledWordsAreTheReadings(Front(paragraphs));
      PutLinesStrips(PutParagraphs(Front(paragraphs)), Last(paragraphs).lines, |paragraphs| - 1);
      ReadingsSnoc(paragraphs, 0);
    }
  }

  function Texts(words: seq<OcrWord>): seq<string> {
    seq(|words|, i requires 0 <= i < |words| => words[i].text)
  }

  function ReadingTexts(readings: seq<Reading>): (texts: seq<string>)
    ensures |texts| == |readings| && forall i :: 0 <= i < |texts| ==> texts[i] == readings[i].text
  {
    seq(|readings|, i requires 0 <= i < |readings| => readings[i].text)
  }

  /** The trimmed non-blank words of a recognition tree, in traversal order. */
  function TreeWords(blocks: Option<seq<Block>>): seq<string> {
    ReadingTexts(Readings(Tree(blocks), 0))
  }

  lemma AssembledTextsAreTreeWords(blocks: Option<seq<Block>>)
    ensures Texts(Assemble(blocks).words) == TreeWords(blocks)
  {
    AssembledWordsAreTheReadings(Tree(blocks));
    var l := PutParagraphs(Tree(blocks));
    assert forall i :: 0 <= i < |l.words| ==> Strip(l)[i].text == l.words[i].text;
  }
}
