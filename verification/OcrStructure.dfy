/** The separators `assemblePage` writes carry the tree: lines and paragraphs can be read back from the text. */
module OcrStructure {
  import opened Prelude
  import opened Strings
  import opened OcrAssembly

  /** A paragraph is its lines, a line its words; lines without words are gone. */
  type Grouping = seq<seq<string>>

  function LineTexts(words: seq<WordBox>): seq<string> {
    if words == [] then []
    else
      var value := Trim(Last(words).text);
      LineTexts(Front(words)) + if value == [] then [] else [value]
  }

  function ParagraphShape(lines: seq<OcrLine>): Grouping {
    if lines == [] then []
    else
      var texts := LineTexts(Last(lines).words);
      ParagraphShape(Front(lines)) + if texts == [] then [] else [texts]
  }

  function FullShape(paragraphs: seq<Paragraph>): seq<Grouping> {
    if paragraphs == [] then [] else FullShape(Front(paragraphs)) + [ParagraphShape(Last(paragraphs).lines)]
  }

  function DropTrailingEmpty(shape: seq<Grouping>): seq<Grouping> {
    if shape != [] && Last(shape) == [] then DropTrailingEmpty(Front(shape)) else shape
  }

  /** The page's grouping of words, up to word-free paragraphs at its very end. */
  function Shape(blocks: Option<seq<Block>>): seq<Grouping> {
    DropTrailingEmpty(FullShape(Tree(blocks)))
  }

  /** The shape with more lines in its last paragraph. */
  function AddLines(shape: seq<Grouping>, g: Grouping): (r: seq<Grouping>)
    requires shape != []
    ensures r != []
  {
    Front(shape) + [Last(shape) + g]
  }

  /** Reading the text: an empty line closes a paragraph, any other line belongs to the current one. */
  function Group(pieces: seq<string>): (shape: seq<Grouping>)
    ensures shape != []
  {
    if pieces == [] then [[]]
    else
      var before, piece := Group(Front(pieces)), Last(pieces);
      if piece == [] then before + [[]]
      else AddLines(before, [Split(piece, ' ')])
  }

  function Recover(text: string): seq<Grouping> {
    DropTrailingEmpty(Group(Split(text, '\n')))
  }

  predicate CleanWord(w: string) {
    ' ' !in w && '\n' !in w
  }

  predicate CleanGrouping(g: Grouping) {
    forall line, w :: line in g && w in line ==> CleanWord(w)
  }

  predicate CleanShape(shape: seq<Grouping>) {
    forall g :: g in shape ==> CleanGrouping(g)
  }

  // ----- The text, line by line -----

  function LinePieces(g: Grouping): seq<string> {
    seq(|g|, i requires 0 <= i < |g| => Join(g[i], " "))
  }

  function Pieces(paragraphs: seq<Paragraph>): seq<string> {
    if paragraphs == [] then []
    else Pieces(Front(paragraphs)) + LinePieces(ParagraphShape(Last(paragraphs).lines)) + [[]]
  }

  lemma {:induction false} PutWordsText(l: Layout, line: OcrLine, words: seq<WordBox>, place: Place)
    ensures var l' := PutWords(l, line, words, place);
      && l'.text == l.text + Join(LineTexts(words), " ")
      && l'.wrote == (LineTexts(words) != [])
  {
    if words != [] {
      PutWordsText(l, line, Front(words), place);
      var value := Trim(Last(words).text);
      var before := LineTexts(Front(words));
      if value == [] {
        assert before + [] == before;
      } else {
        JoinSnoc(before, value, " ");
        assert LineTexts(words) == before + [value];
        if before == [] {
          assert l.text + Join(before, " ") == l.text;
        } else {
          assert l.text + Join(before, " ") + " " + value == l.text + (Join(before, " ") + " " + value);
        }
      }
    }
  }

  lemma {:induction false} CleanLineTexts(words: seq<WordBox>)
    ensures forall w :: w in LineTexts(words) ==> w != []
  {
    if words != [] {
      CleanLineTexts(Front(words));
    }
  }

  lemma PutLinePieces(l: Layout, line: OcrLine, place: Place)
    requires Closed(l.text, '\n') && !l.wrote
    requires forall w :: w in LineTexts(line.words) ==> CleanWord(w)
    ensures var l', texts := EndLine(PutWords(l, line, line.words, place)), LineTexts(line.words);
      && Closed(l'.text, '\n') && !l'.wrote
      && Front(Split(l'.text, '\n')) == Front(Split(l.text, '\n')) + if texts == [] then [] else [Join(texts, " ")]
  {
    var texts := LineTexts(line.words);
    PutWordsText(l, line, line.words, place);
    if texts != [] {
      if '\n' in Join(texts, " ") {
        JoinHas(texts, " ", '\n');
      }
      AppendPiece(l.text, '\n', Join(texts, " "));
    } else {
      assert l.text + [] == l.text;
    }
  }

  lemma CleanParts(a: Grouping, b: Grouping)
    requires CleanGrouping(a + b)
    ensures CleanGrouping(a) && CleanGrouping(b)
  {
    assert forall line :: line in a || line in b ==> line in a + b;
  }

  lemma LinePiecesAppend(a: Grouping, b: Grouping)
    ensures LinePieces(a + b) == LinePieces(a) + LinePieces(b)
  {}

  lemma AddedPieces(before: seq<string>, shape: Grouping, texts: seq<string>)
    ensures before + LinePieces(shape + if texts == [] then [] else [texts])
         == before + LinePieces(shape) + if texts == [] then [] else [Join(texts, " ")]
  {
    if texts == [] {
      assert shape + [] == shape;
    } else {
      LinePiecesAppend(shape, [texts]);
      assert LinePieces([texts]) == [Join(texts, " ")];
    }
  }

  lemma {:induction false} PutLinesPieces(l: Layout, lines: seq<OcrLine>, paragraph: nat)
    requires Closed(l.text, '\n') && !l.wrote
    requires CleanGrouping(ParagraphShape(lines))
    ensures var l' := PutLines(l, lines, paragraph);
      && Closed(l'.text, '\n') && !l'.wrote
      && Front(Split(l'.text, '\n')) == Front(Split(l.text, '\n')) + LinePieces(ParagraphShape(lines))
  {
    if lines != [] {
      var texts := LineTexts(Last(lines).words);
      var shape := ParagraphShape(Front(lines));
      var added := if texts == [] then [] else [texts];
      assert ParagraphShape(lines) == shape + added;
      CleanParts(shape, added);
      PutLinesPieces(l, Front(lines), paragraph);
      assert forall w :: w in texts ==> texts == added[0] && texts in added && CleanWord(w);
      PutLinePieces(PutLines(l, Front(lines), paragraph), Last(lines), Place(paragraph, |lines| - 1));
      AddedPieces(Front(Split(l.text, '\n')), shape, texts);
    }
  }

  lemma CleanShapeSplit(shape: seq<Grouping>, last: Grouping)
    requires CleanShape(shape + [last])
    ensures CleanShape(shape) && CleanGrouping(last)
  {
    assert (shape + [last])[|shape|] == last;
    assert forall g :: g in shape ==> g in shape + [last];
  }

  lemma EndParagraphPieces(l: Layout)
    requires Closed(l.text, '\n')
    ensures Closed(EndParagraph(l).text, '\n')
    ensures Front(Split(EndParagraph(l).text, '\n')) == Front(Split(l.text, '\n')) + [[]]
  {
    AppendPiece(l.text, '\n', []);
    assert l.text + [] + ['\n'] == l.text + "\n";
  }

  lemma {:induction false} PutParagraphsPieces(paragraphs: seq<Paragraph>)
    requires CleanShape(FullShape(paragraphs))
    ensures var l := PutParagraphs(paragraphs);
      && Closed(l.text, '\n') && !l.wrote
      && Front(Split(l.text, '\n')) == Pieces(paragraphs)
  {
    if paragraphs != [] {
      var l, lines, p := PutParagraphs(Front(paragraphs)), Last(paragraphs).lines, |paragraphs| - 1;
      CleanShapeSplit(FullShape(Front(paragraphs)), ParagraphShape(lines));
      PutParagraphsPieces(Front(paragraphs));
      PutLinesPieces(l, lines, p);
      EndParagraphPieces(PutLines(l, lines, p));
      PutParagraphsKeepsInv(paragraphs);
    }
  }

  // ----- Reading it back -----

  lemma AddLinesTwice(shape: seq<Grouping>, g: Grouping, h: Grouping)
    requires shape != []
    ensures AddLines(AddLines(shape, g), h) == AddLines(shape, g + h)
  {
    assert Front(AddLines(shape, g)) == Front(shape);
    assert Last(shape) + g + h == Last(shape) + (g + h);
  }

  lemma GroupSnoc(pieces: seq<string>, piece: string)
    ensures Group(pieces + [piece])
         == if piece == [] then Group(pieces) + [[]] else AddLines(Group(pieces), [Split(piece, ' ')])
  {
    assert Front(pieces + [piece]) == pieces;
  }

  lemma {:induction false} GroupLines(pieces: seq<string>, g: Grouping)
    requires CleanGrouping(g) && forall line :: line in g ==> line != [] && [] !in line
    ensures Group(pieces + LinePieces(g)) == AddLines(Group(pieces), g)
  {
    if g == [] {
      assert pieces + LinePieces(g) == pieces;
      assert Last(Group(pieces)) + g == Last(Group(pieces));
    } else {
      var before, line := Front(g), Last(g);
      var piece := Join(line, " ");
      assert g == before + [line];
      assert line in g;
      CleanParts(before, [line]);
      GroupLines(pieces, before);
      LinePiecesAppend(before, [line]);
      assert LinePieces([line]) == [piece];
      assert pieces + LinePieces(g) == (pieces + LinePieces(before)) + [piece];
      GroupSnoc(pieces + LinePieces(before), piece);
      SplitJoin(line, ' ');
      JoinNotEmpty(line, " ");
      AddLinesTwice(Group(pieces), before, [line]);
    }
  }

  lemma JoinNotEmpty(words: seq<string>, separator: string)
    requires words != [] && [] !in words
    ensures Join(words, separator) != []
  {
    assert words[0] != [];
  }

  lemma {:induction false} ShapeLinesNotEmpty(lines: seq<OcrLine>)
    ensures forall line :: line in ParagraphShape(lines) ==> line != [] && [] !in line
  {
    if lines != [] {
      ShapeLinesNotEmpty(Front(lines));
      CleanLineTexts(Last(lines).words);
    }
  }

  lemma {:induction false} GroupPieces(paragraphs: seq<Paragraph>)
    requires CleanShape(FullShape(paragraphs))
    ensures Group(Pieces(paragraphs)) == FullShape(paragraphs) + [[]]
  {
    if paragraphs != [] {
      var shape, last := FullShape(Front(paragraphs)), ParagraphShape(Last(paragraphs).lines);
      assert FullShape(paragraphs) == shape + [last];
      assert last in FullShape(paragraphs) && forall g :: g in shape ==> g in FullShape(paragraphs);
      GroupPieces(Front(paragraphs));
      ShapeLinesNotEmpty(Last(paragraphs).lines);
      GroupLines(Pieces(Front(paragraphs)), last);
      var pieces := Pieces(Front(paragraphs)) + LinePieces(last);
      assert Front(shape + [[]]) == shape && Last(shape + [[]]) + last == last;
      assert Group(pieces) == shape + [last];
      GroupSnoc(pieces, []);
    }
  }

  lemma RecoverIgnoresNewline(text: string)
    ensures Recover(text + "\n") == Recover(text)
  {
    SplitAppend(text, '\n', []);
    assert text + ['\n'] + [] == text + "\n";
    var pieces := Split(text, '\n');
    assert Split([], '\n') == [[]];
    assert Front(pieces + [[]]) == pieces;
    assert Front(Group(pieces) + [[]]) == Group(pieces);
  }

  lemma {:induction false} RecoverIgnoresNewlines(text: string, n: nat)
    ensures Recover(text + Newlines(n)) == Recover(text)
  {
    if n == 0 {
      assert text + Newlines(0) == text;
    } else {
      assert text + Newlines(n) == text + Newlines(n - 1) + "\n";
      RecoverIgnoresNewline(text + Newlines(n - 1));
      RecoverIgnoresNewlines(text, n - 1);
    }
  }

  lemma GapAfterIsNewlines(last: Option<Place>, end: Place)
    requires last.Some? ==> last.value.paragraph < end.paragraph
    ensures Gap(last, end) == Newlines(|Gap(last, end)|)
  {}

  lemma TailIsTheGap(l: Layout, at: Place)
    requires Inv(l, at) && !l.wrote && at.line == 0
    requires forall i :: 0 <= i < |l.places| ==> l.places[i].paragraph < at.paragraph
    ensures var gap := Gap(PlaceBefore(l.places, |l.places|), at);
      l.text == l.text[..EndBefore(l.words, |l.words|)] + Newlines(|gap|)
  {
    GapAfterIsNewlines(PlaceBefore(l.places, |l.places|), at);
    var e := EndBefore(l.words, |l.words|);
    assert l.text == l.text[..e] + l.text[e..];
  }

  lemma {:induction false} PlacesAreInside(paragraphs: seq<Paragraph>)
    ensures forall p :: p in PutParagraphs(paragraphs).places ==> p.paragraph < |paragraphs|
  {
    if paragraphs != [] {
      PlacesAreInside(Front(paragraphs));
      LinesPlace(PutParagraphs(Front(paragraphs)), Last(paragraphs).lines, |paragraphs| - 1);
    }
  }

  lemma {:induction false} LinesPlace(l: Layout, lines: seq<OcrLine>, paragraph: nat)
    ensures forall p :: p in PutLines(l, lines, paragraph).places ==> p in l.places || p.paragraph == paragraph
  {
    if lines != [] {
      LinesPlace(l, Front(lines), paragraph);
      WordsPlace(PutLines(l, Front(lines), paragraph), Last(lines), Last(lines).words, Place(paragraph, |lines| - 1));
    }
  }

  lemma {:induction false} WordsPlace(l: Layout, line: OcrLine, words: seq<WordBox>, place: Place)
    ensures forall p :: p in PutWords(l, line, words, place).places ==> p in l.places || p == place
  {
    if words != [] {
      WordsPlace(l, line, Front(words), place);
    }
  }

  /** `trimEnd` removed line breaks only. */
  lemma TrimmedAreNewlines(blocks: Option<seq<Block>>) returns (n: nat)
    ensures PutParagraphs(Tree(blocks)).text == Assemble(blocks).text + Newlines(n)
  {
    var l, at := PutParagraphs(Tree(blocks)), Place(|Tree(blocks)|, 0);
    PutParagraphsKeepsInv(Tree(blocks));
    PlacesAreInside(Tree(blocks));
    TailIsTheGap(l, at);
    AssembledWordsAreExact(blocks);
    TrimEndKeepsFirst(l.text);
    n := |Gap(PlaceBefore(l.places, |l.places|), at)|;
    assert Assemble(blocks).text == l.text[..EndBefore(l.words, |l.words|)];
  }

  lemma {:induction false} GroupIsClean(pieces: seq<string>)
    requires forall piece :: piece in pieces ==> '\n' !in piece
    ensures CleanShape(Group(pieces))
  {
    if pieces != [] {
      var before, piece := Group(Front(pieces)), Last(pieces);
      assert forall q :: q in Front(pieces) ==> q in pieces;
      GroupIsClean(Front(pieces));
      SplitPieces(piece, ' ');
      assert Last(before) in before && forall g :: g in Front(before) ==> g in before;
      forall g | g in Group(pieces)
        ensures CleanGrouping(g)
      {
        if g !in before && g != [] {
          assert g == Last(before) + [Split(piece, ' ')];
          forall line, w | line in g && w in line
            ensures CleanWord(w)
          {
            if line !in Last(before) {
              assert w in Split(piece, ' ');
            }
          }
        }
      }
    }
  }

  lemma {:induction false} DropTrailingKeepsWords(shape: seq<Grouping>)
    ensures CleanShape(DropTrailingEmpty(shape)) <==> CleanShape(shape)
  {
    if shape != [] && Last(shape) == [] {
      DropTrailingKeepsWords(Front(shape));
      assert forall g :: g in shape <==> g in Front(shape) || g == Last(shape);
    }
  }

  /**
   * The text alone gives back every line and paragraph of the tree, exactly when no recognised word
   * contains a space or a line break.
   */
  lemma TextEncodesTheTree(blocks: Option<seq<Block>>)
    ensures Recover(Assemble(blocks).text) == Shape(blocks) <==> CleanShape(FullShape(Tree(blocks)))
  {
    var paragraphs, text := Tree(blocks), Assemble(blocks).text;
    SplitPieces(text, '\n');
    GroupIsClean(Split(text, '\n'));
    DropTrailingKeepsWords(Group(Split(text, '\n')));
    DropTrailingKeepsWords(FullShape(paragraphs));
    if CleanShape(FullShape(paragraphs)) {
      var n := TrimmedAreNewlines(blocks);
      RecoverIgnoresNewlines(text, n);
      FullTextEncodesTheTree(paragraphs);
    }
  }

  lemma DropOneEmpty(shape: seq<Grouping>)
    ensures DropTrailingEmpty(shape + [[]]) == DropTrailingEmpty(shape)
  {
    assert Front(shape + [[]]) == shape;
  }

  lemma FullTextEncodesTheTree(paragraphs: seq<Paragraph>)
    requires CleanShape(FullShape(paragraphs))
    ensures Recover(PutParagraphs(paragraphs).text) == DropTrailingEmpty(FullShape(paragraphs))
  {
    var full, shape := PutParagraphs(paragraphs).text, FullShape(paragraphs);
    PutParagraphsPieces(paragraphs);
    GroupPieces(paragraphs);
    LastPieceOfClosed(full, '\n');
    var pieces := Split(full, '\n');
    assert pieces == Front(pieces) + [[]];
    GroupSnoc(Front(pieces), []);
    assert Group(pieces) == shape + [[]] + [[]];
    DropOneEmpty(shape + [[]]);
    DropOneEmpty(shape);
  }

  // ----- The shape and the words -----

  lemma ReadingTextsAppend(a: seq<Reading>, b: seq<Reading>)
    ensures ReadingTexts(a + b) == ReadingTexts(a) + ReadingTexts(b)
  {}

  lemma {:induction false} LineTextsAreRead(line: OcrLine, words: seq<WordBox>, place: Place)
    ensures LineTexts(words) == ReadingTexts(LineReadings(line, words, place))
  {
    if words != [] {
      var last := LineReadings(line, [Last(words)], place);
      LineTextsAreRead(line, Front(words), place);
      LineReadingsSnoc(line, words, place);
      ReadingTextsAppend(LineReadings(line, Front(words), place), last);
      assert [Last(words)][1..] == [];
    }
  }

  lemma FlattenSnoc<T>(parts: seq<seq<T>>, part: seq<T>)
    ensures Flatten(parts + [part]) == Flatten(parts) + part
  {
    FlattenAppend(parts, [part]);
    FlattenOne(part);
  }

  lemma {:induction false} ParagraphShapeIsRead(lines: seq<OcrLine>, paragraph: nat)
    ensures Flatten(ParagraphShape(lines)) == ReadingTexts(ParagraphReadings(lines, paragraph, 0))
  {
    if lines != [] {
      var line, place := Last(lines), Place(paragraph, |lines| - 1);
      var texts := LineTexts(line.words);
      ParagraphShapeIsRead(Front(lines), paragraph);
      LineTextsAreRead(line, line.words, place);
      ParagraphReadingsSnoc(lines, paragraph, 0);
      ReadingTextsAppend(ParagraphReadings(Front(lines), paragraph, 0), LineReadings(line, line.words, place));
      FlattenSnoc(ParagraphShape(Front(lines)), texts);
      assert ParagraphShape(Front(lines)) + [] == ParagraphShape(Front(lines));
    }
  }

  lemma FlattenTwiceSnoc(shape: seq<Grouping>, g: Grouping)
    ensures Flatten(Flatten(shape + [g])) == Flatten(Flatten(shape)) + Flatten(g)
  {
    FlattenSnoc(shape, g);
    FlattenAppend(Flatten(shape), g);
  }

  lemma {:induction false} FullShapeIsRead(paragraphs: seq<Paragraph>)
    ensures Flatten(Flatten(FullShape(paragraphs))) == ReadingTexts(Readings(paragraphs, 0))
  {
    if paragraphs != [] {
      var lines, p := Last(paragraphs).lines, |paragraphs| - 1;
      FullShapeIsRead(Front(paragraphs));
      ParagraphShapeIsRead(lines, p);
      ReadingsSnoc(paragraphs, 0);
      ReadingTextsAppend(Readings(Front(paragraphs), 0), ParagraphReadings(lines, p, 0));
      FlattenTwiceSnoc(FullShape(Front(paragraphs)), ParagraphShape(lines));
    }
  }

  lemma {:induction false} DroppedHoldNothing(shape: seq<Grouping>)
    ensures Flatten(DropTrailingEmpty(shape)) == Flatten(shape)
  {
    if shape != [] && Last(shape) == [] {
      DroppedHoldNothing(Front(shape));
      FlattenSnoc(Front(shape), []);
      assert Front(shape) + [[]] == shape;
    }
  }

  /** The lines and paragraphs of the shape hold exactly the words of the page, in order. */
  lemma ShapeHoldsTheWords(blocks: Option<seq<Block>>)
    ensures Flatten(Flatten(Shape(blocks))) == Texts(Assemble(blocks).words)
  {
    DroppedHoldNothing(FullShape(Tree(blocks)));
    FullShapeIsRead(Tree(blocks));
    AssembledTextsAreTreeWords(blocks);
  }
}
