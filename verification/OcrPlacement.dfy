/** Where recognised words end up on the page, and how the recovered text is put together. */
module OcrPlacement {
  import opened Prelude
  import opened Strings
  import opened PdfItems
  import opened OcrAssembly
  import opened OcrGeometry
  import opened OcrDocument

  // ----- The words of the tree, with their own boxes -----

  /** A word of the tree: its trimmed text, its own left and right, its line's top and bottom, its confidence. */
  datatype Spot = Spot(text: string, x0: real, x1: real, top: real, bottom: real, confidence: real)

  function SpotsOf(words: seq<WordBox>, top: real, bottom: real): seq<Spot> {
    if words == [] then []
    else
      var w := words[0];
      (if Trim(w.text) == [] then []
       else [Spot(Trim(w.text), w.bbox.x0, w.bbox.x1, top, bottom, w.confidence)])
      + SpotsOf(words[1..], top, bottom)
  }

  function LineSpots(lines: seq<OcrLine>): seq<Spot> {
    if lines == [] then []
    else SpotsOf(lines[0].words, lines[0].bbox.y0, lines[0].bbox.y1) + LineSpots(lines[1..])
  }

  function Spots(paragraphs: seq<Paragraph>): seq<Spot> {
    if paragraphs == [] then [] else LineSpots(paragraphs[0].lines) + Spots(paragraphs[1..])
  }

  predicate IsSpot(r: Reading, s: Spot) {
    && r.text == s.text && r.confidence == s.confidence
    && r.bbox.x0 == s.x0 && r.bbox.x1 == s.x1 && r.bbox.y0 == s.top && r.bbox.y1 == s.bottom
  }

  predicate AreSpots(readings: seq<Reading>, spots: seq<Spot>) {
    |readings| == |spots| && forall i :: 0 <= i < |spots| ==> IsSpot(readings[i], spots[i])
  }

  lemma SpotsAppend(a: seq<Reading>, b: seq<Reading>, s: seq<Spot>, t: seq<Spot>)
    requires AreSpots(a, s) && AreSpots(b, t)
    ensures AreSpots(a + b, s + t)
  {}

  lemma {:induction false} WordsAreSpots(line: OcrLine, words: seq<WordBox>, place: Place)
    ensures AreSpots(LineReadings(line, words, place), SpotsOf(words, line.bbox.y0, line.bbox.y1))
  {
    if words != [] {
      WordsAreSpots(line, words[1..], place);
    }
  }

  lemma {:induction false} LinesAreSpots(lines: seq<OcrLine>, paragraph: nat, from: nat)
    ensures AreSpots(ParagraphReadings(lines, paragraph, from), LineSpots(lines))
  {
    if lines != [] {
      WordsAreSpots(lines[0], lines[0].words, Place(paragraph, from));
      LinesAreSpots(lines[1..], paragraph, from + 1);
      SpotsAppend(LineReadings(lines[0], lines[0].words, Place(paragraph, from)),
                  ParagraphReadings(lines[1..], paragraph, from + 1),
                  SpotsOf(lines[0].words, lines[0].bbox.y0, lines[0].bbox.y1), LineSpots(lines[1..]));
    }
  }

  lemma {:induction false} ReadingsAreSpots(paragraphs: seq<Paragraph>, from: nat)
    ensures AreSpots(Readings(paragraphs, from), Spots(paragraphs))
  {
    if paragraphs != [] {
      LinesAreSpots(paragraphs[0].lines, from, 0);
      ReadingsAreSpots(paragraphs[1..], from + 1);
      SpotsAppend(ParagraphReadings(paragraphs[0].lines, from, 0), Readings(paragraphs[1..], from + 1),
                  LineSpots(paragraphs[0].lines), Spots(paragraphs[1..]));
    }
  }

  function TreeSpots(blocks: Option<seq<Block>>): seq<Spot> {
    Spots(if blocks.Some? then AllParagraphs(blocks.value) else [])
  }

  function AllParagraphs(blocks: seq<Block>): seq<Paragraph> {
    if blocks == [] then [] else blocks[0].paragraphs + AllParagraphs(blocks[1..])
  }

  lemma {:induction false} ParagraphsAppend(a: seq<Block>, b: seq<Block>)
    ensures Paragraphs(a + b) == Paragraphs(a) + Paragraphs(b)
  {
    if b == [] {
      assert a + b == a;
    } else {
      assert Front(a + b) == a + Front(b) && Last(a + b) == Last(b);
      ParagraphsAppend(a, Front(b));
      Reassociate(Paragraphs(a), Paragraphs(Front(b)), Last(b).paragraphs);
    }
  }

  lemma {:induction false} ParagraphsInOrder(blocks: seq<Block>)
    ensures Paragraphs(blocks) == AllParagraphs(blocks)
  {
    if blocks != [] {
      ParagraphsInOrder(blocks[1..]);
      ParagraphsAppend([blocks[0]], blocks[1..]);
      assert [blocks[0]] + blocks[1..] == blocks && Front([blocks[0]]) == [];
    }
  }

  /** In traversal order, every word keeps its own left and right and takes its line's top and bottom. */
  lemma AssembledWordsAreTheSpots(blocks: Option<seq<Block>>)
    ensures var words, spots := Assemble(blocks).words, TreeSpots(blocks);
      && |words| == |spots|
      && forall i :: 0 <= i < |words| ==>
           && words[i].text == spots[i].text && words[i].confidence == spots[i].confidence
           && words[i].bbox == BBox(spots[i].x0, spots[i].top, spots[i].x1, spots[i].bottom)
  {
    var paragraphs := Tree(blocks);
    if blocks.Some? {
      ParagraphsInOrder(blocks.value);
    }
    AssembledWordsAreTheReadings(paragraphs);
    ReadingsAreSpots(paragraphs, 0);
    var l := PutParagraphs(paragraphs);
    forall i | 0 <= i < |l.words|
      ensures IsSpot(Strip(l)[i], TreeSpots(blocks)[i])
    {
      assert Strip(l)[i] == Readings(paragraphs, 0)[i];
    }
  }

  // ----- On the page -----

  /** An extent between two coordinates, in either order. */
  predicate Spans(from: real, extent: real, p: real, q: real) {
    (from == p && from + extent == q && p <= q) || (from == q && from + extent == p && q <= p)
  }

  /** The image fills the unit square, top row up, and the matrix takes the square onto the page. */
  lemma ImageFillsTheSquare(pl: Placement)
    requires pl.Sized()
    ensures ToPagePoint(0.0, pl.height, pl) == Point(pl.e, pl.f)
    ensures ToPagePoint(pl.width, pl.height, pl) == Point(pl.a + pl.e, pl.b + pl.f)
    ensures ToPagePoint(0.0, 0.0, pl) == Point(pl.c + pl.e, pl.d + pl.f)
  {
    assert pl.width / pl.width == 1.0 && pl.height / pl.height == 1.0;
    assert 0.0 / pl.width == 0.0 && 0.0 / pl.height == 0.0;
    SquareCorners(pl.a, pl.c, pl.e);
    SquareCorners(pl.b, pl.d, pl.f);
  }

  lemma SquareCorners(k: real, m: real, n: real)
    ensures Transform(0.0, 0.0, k, m, n) == n
    ensures Transform(1.0, 0.0, k, m, n) == k + n && Transform(0.0, 1.0, k, m, n) == m + n
  {}

  /** Each item stands exactly where the matrix puts two opposite corners of its word's box. */
  lemma WordsLandWhereTheirBoxesAre(blocks: Option<seq<Block>>, pl: Placement, page: nat, offset: nat, i: nat)
    requires pl.width > 0.0 && pl.height > 0.0 && i < |TreeSpots(blocks)|
    ensures |MapWordsToItems(Assemble(blocks).words, pl, page, offset)| == |TreeSpots(blocks)|
    ensures var s, r := TreeSpots(blocks)[i], MapWordsToItems(Assemble(blocks).words, pl, page, offset)[i];
      && r.page == page
      && Spans(r.x, r.width, s.x0 / pl.width * pl.a + (1.0 - s.top / pl.height) * pl.c + pl.e,
                             s.x1 / pl.width * pl.a + (1.0 - s.bottom / pl.height) * pl.c + pl.e)
      && Spans(r.y, r.height, s.x0 / pl.width * pl.b + (1.0 - s.top / pl.height) * pl.d + pl.f,
                              s.x1 / pl.width * pl.b + (1.0 - s.bottom / pl.height) * pl.d + pl.f)
  {
    AssembledWordsAreTheSpots(blocks);
  }

  /** Upright or mirrored, the word's own left and right are across the page; a quarter turn puts them up the page. */
  lemma AxisPreservingWords(blocks: Option<seq<Block>>, pl: Placement, page: nat, offset: nat, i: nat)
    requires pl.width > 0.0 && pl.height > 0.0 && i < |TreeSpots(blocks)|
    ensures |MapWordsToItems(Assemble(blocks).words, pl, page, offset)| == |TreeSpots(blocks)|
    ensures var s, r := TreeSpots(blocks)[i], MapWordsToItems(Assemble(blocks).words, pl, page, offset)[i];
      && (pl.b == 0.0 && pl.c == 0.0 ==>
            && Spans(r.x, r.width, s.x0 / pl.width * pl.a + pl.e, s.x1 / pl.width * pl.a + pl.e)
            && Spans(r.y, r.height, (1.0 - s.top / pl.height) * pl.d + pl.f,
                                    (1.0 - s.bottom / pl.height) * pl.d + pl.f))
      && (pl.a == 0.0 && pl.d == 0.0 ==>
            && Spans(r.x, r.width, (1.0 - s.top / pl.height) * pl.c + pl.e, (1.0 - s.bottom / pl.height) * pl.c + pl.e)
            && Spans(r.y, r.height, s.x0 / pl.width * pl.b + pl.f, s.x1 / pl.width * pl.b + pl.f))
  {
    var s := TreeSpots(blocks)[i];
    WordsLandWhereTheirBoxesAre(blocks, pl, page, offset, i);
    Vanishes(1.0 - s.top / pl.height, pl.c);
    Vanishes(1.0 - s.bottom / pl.height, pl.c);
    Vanishes(s.x0 / pl.width, pl.b);
    Vanishes(s.x1 / pl.width, pl.b);
    Vanishes(s.x0 / pl.width, pl.a);
    Vanishes(s.x1 / pl.width, pl.a);
    Vanishes(1.0 - s.top / pl.height, pl.d);
    Vanishes(1.0 - s.bottom / pl.height, pl.d);
  }

  /** Without an extent there is nothing to place. */
  lemma NoExtentNoItems(words: seq<OcrWord>, pl: Placement, page: nat, offset: nat)
    requires pl.width <= 0.0 || pl.height <= 0.0
    ensures MapWordsToItems(words, pl, page, offset) == []
  {}

  lemma Vanishes(v: real, k: real)
    ensures k == 0.0 ==> v * k == 0.0
  {}

  // ----- The document -----

  /** The texts of the images that have one. */
  function ImageTexts(images: seq<PageImage>): seq<string> {
    if images == [] then [] else ImageTexts(Front(images)) + ImageText(Last(images))
  }

  function ImageText(image: PageImage): seq<string> {
    if TreeWords(image.blocks) == [] then [] else [Assemble(image.blocks).text]
  }

  function PageTexts(pages: seq<ScannedPage>): seq<string> {
    if pages == [] then [] else PageTexts(Front(pages)) + PageText(Last(pages).images)
  }

  function PageText(images: seq<PageImage>): seq<string> {
    if ImageTexts(images) == [] then [] else [Join(ImageTexts(images), "\n")]
  }

  lemma JoinedIsEmptyIff(texts: seq<string>, separator: string)
    requires forall t :: t in texts ==> t != []
    ensures Join(texts, separator) == [] <==> texts == []
  {
    assert texts != [] ==> texts[0] in texts;
  }

  lemma WordedImageHasText(image: PageImage)
    ensures TreeWords(image.blocks) != [] ==> Assemble(image.blocks).text != []
  {
    BlankIffWordless(image.blocks);
    assert Trim([]) == [];
  }

  lemma {:induction false} ImageTextsAreNotEmpty(images: seq<PageImage>)
    ensures forall t :: t in ImageTexts(images) ==> t != []
  {
    if images != [] {
      WordedImageHasText(Last(images));
      ImageTextsAreNotEmpty(Front(images));
    }
  }

  /** One more text is joined on, with the separator if there is one before. */
  lemma JoinOneMore(texts: seq<string>, text: string, separator: string)
    requires forall t :: t in texts ==> t != []
    ensures Join(texts + [text], separator)
         == (if Join(texts, separator) != [] then Join(texts, separator) + separator else Join(texts, separator)) + text
  {
    JoinSnoc(texts, text, separator);
    JoinedIsEmptyIff(texts, separator);
  }

  /** A page's text is the texts of its images with words, joined by line breaks. */
  lemma {:induction false} PageTextJoins(images: seq<PageImage>, page: nat)
    ensures PageOf(images, page).text == Join(ImageTexts(images), "\n")
  {
    if images != [] {
      var before, image := Front(images), Last(images);
      PageTextJoins(before, page);
      BlankIffWordless(image.blocks);
      ImageTextsAreNotEmpty(before);
      JoinOneMore(ImageTexts(before), Assemble(image.blocks).text, "\n");
      assert ImageTexts(before) + [] == ImageTexts(before);
    }
  }

  lemma {:induction false} PageTextsAreNotEmpty(pages: seq<ScannedPage>)
    ensures forall t :: t in PageTexts(pages) ==> t != []
  {
    if pages != [] {
      ImageTextsAreNotEmpty(Last(pages).images);
      JoinedIsEmptyIff(ImageTexts(Last(pages).images), "\n");
      PageTextsAreNotEmpty(Front(pages));
    }
  }

  lemma PageTextIs(page: ScannedPage)
    ensures var text := PageOf(page.images, page.number).text;
      PageText(page.images) == if text == [] then [] else [text]
  {
    PageTextJoins(page.images, page.number);
    ImageTextsAreNotEmpty(page.images);
    JoinedIsEmptyIff(ImageTexts(page.images), "\n");
  }

  /** The document's text is the texts of its pages with words, joined by blank lines. */
  lemma {:induction false} DocumentTextJoins(pages: seq<ScannedPage>)
    ensures Document(pages).text == Join(PageTexts(pages), "\n\n")
  {
    if pages != [] {
      var before, page := Front(pages), Last(pages);
      DocumentTextJoins(before);
      PageTextIs(page);
      PageTextsAreNotEmpty(before);
      JoinOneMore(PageTexts(before), PageOf(page.images, page.number).text, "\n\n");
      assert PageTexts(before) + [] == PageTexts(before);
    }
  }

  /** Where the items of an image are, on a page of this number. */
  function ImageRects(image: PageImage, page: nat): seq<Rect> {
    Rects(MapWordsToItems(Assemble(image.blocks).words, image.placement, page, 0))
  }

  function PageRects(images: seq<PageImage>, page: nat): seq<Rect> {
    if images == [] then [] else PageRects(Front(images), page) + ImageRects(Last(images), page)
  }

  function DocumentRects(pages: seq<ScannedPage>): seq<Rect> {
    if pages == [] then []
    else DocumentRects(Front(pages)) + PageRects(Last(pages).images, Last(pages).number)
  }

  lemma AddImageRects(s: Anchored, image: PageImage, page: nat)
    ensures Rects(AddImage(s, image, page).items) == Rects(s.items) + ImageRects(image, page)
  {
    var words, offset := Assemble(image.blocks).words, |if s.text != [] then s.text + "\n" else s.text|;
    BlankIffWordless(image.blocks);
    AssembledTextsAreTreeWords(image.blocks);
    MappedItemsShift(words, image.placement, page, offset);
    RectsAppend(s.items, MapWordsToItems(words, image.placement, page, offset));
    RectsShift(MapWordsToItems(words, image.placement, page, 0), offset);
    if TreeWords(image.blocks) == [] {
      assert words == [] by {
        assert |Texts(words)| == 0;
      }
      assert ImageRects(image, page) == [];
    }
  }

  lemma {:induction false} PageKeepsRects(images: seq<PageImage>, page: nat)
    ensures Rects(PageOf(images, page).items) == PageRects(images, page)
  {
    if images != [] {
      PageKeepsRects(Front(images), page);
      AddImageRects(PageOf(Front(images), page), Last(images), page);
    }
  }

  lemma AddPageRects(s: Anchored, page: Anchored)
    requires page.text == [] ==> page.items == []
    ensures Rects(AddPage(s, page).items) == Rects(s.items) + Rects(page.items)
  {
    var offset := |if s.text != [] then s.text + "\n\n" else s.text|;
    RectsAppend(s.items, ShiftAll(page.items, offset));
    RectsShift(page.items, offset);
  }

  /** Joining moves offsets only: every item of the document is where its image's own item is. */
  lemma {:induction false} DocumentKeepsRects(pages: seq<ScannedPage>)
    ensures Rects(Document(pages).items) == DocumentRects(pages)
  {
    if pages != [] {
      var page := PageOf(Last(pages).images, Last(pages).number);
      DocumentKeepsRects(Front(pages));
      PageKeepsRects(Last(pages).images, Last(pages).number);
      PageIsExact(Last(pages).images, Last(pages).number);
      if page.text == [] {
        WordsNeedText(page, PageWords(Last(pages).images));
      }
      AddPageRects(Document(Front(pages)), page);
    }
  }
}
