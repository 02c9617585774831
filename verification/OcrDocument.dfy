/** Joining recognised images into pages, and pages into a document: `ocrPages`, `joinPages`, and the hybrid append. */
module OcrDocument {
  import opened Prelude
  import opened Strings
  import opened PdfItems
  import opened OcrAssembly
  import opened OcrGeometry
  import Sorting
  import LineCodec

  datatype PageImage = PageImage(blocks: Option<seq<Block>>, placement: Placement)
  datatype ScannedPage = ScannedPage(number: nat, images: seq<PageImage>)

  const NOTHING := Anchored("", [])

  function AddImage(s: Anchored, image: PageImage, page: nat): Anchored {
    var result := Assemble(image.blocks);
    if Trim(result.text) == [] then s
    else
      var text := if s.text != [] then s.text + "\n" else s.text;
      Anchored(text + result.text, s.items + MapWordsToItems(result.words, image.placement, page, |text|))
  }

  function PageOf(images: seq<PageImage>, page: nat): Anchored {
    if images == [] then NOTHING else AddImage(PageOf(Front(images), page), Last(images), page)
  }

  /** Pages that yielded no text are left out, so they add no separator. */
  function AddPage(s: Anchored, page: Anchored): Anchored {
    if page.text == [] then s
    else
      var text := if s.text != [] then s.text + "\n\n" else s.text;
      Anchored(text + page.text, s.items + ShiftAll(page.items, |text|))
  }

  function Document(pages: seq<ScannedPage>): Anchored {
    if pages == [] then NOTHING
    else AddPage(Document(Front(pages)), PageOf(Last(pages).images, Last(pages).number))
  }

  /** A hybrid document: recovered text goes after the native text, so native runs stay put. */
  function AppendRecovered(native: Anchored, ocr: Anchored): Anchored {
    Anchored(native.text + ocr.text + "\n", native.items + ShiftAll(ocr.items, |native.text|))
  }

  function PageNumber(page: ScannedPage): real {
    page.number as real
  }

  /** The pages by number, whatever order their images were extracted in. */
  function InOrder(pages: seq<ScannedPage>): seq<ScannedPage> {
    Sorting.Sort(pages, PageNumber)
  }

  method OcrPages(pages: seq<ScannedPage>) returns (doc: Anchored)
    ensures doc == Document(InOrder(pages))
  {
    var sorted := InOrder(pages);
    doc := NOTHING;
    for p := 0 to |sorted|
      invariant doc == Document(sorted[..p])
    {
      assert Front(sorted[..p + 1]) == sorted[..p];
      var page := OcrPageImages(sorted[p].images, sorted[p].number);
      if page.text != [] {
        doc := JoinPage(doc, page);
      }
    }
    assert sorted[..|sorted|] == sorted;
  }

  /** One turn of the joining loop: every item moves by where its page lands. */
  method JoinPage(doc0: Anchored, page: Anchored) returns (doc: Anchored)
    requires page.text != []
    ensures doc == AddPage(doc0, page)
  {
    var text, items := doc0.text, doc0.items;
    if text != [] {
      text := text + "\n\n";
    }
    items := PushShifted(items, page.items, |text|);
    doc := Anchored(text + page.text, items);
  }

  method OcrPageImages(images: seq<PageImage>, number: nat) returns (page: Anchored)
    ensures page == PageOf(images, number)
  {
    var text, runs := "", [];
    for i := 0 to |images|
      invariant Anchored(text, runs) == PageOf(images[..i], number)
    {
      assert Front(images[..i + 1]) == images[..i];
      var result := AssemblePage(images[i].blocks);
      if Trim(result.text) == [] {
        continue;
      }
      if text != [] {
        text := text + "\n";
      }
      runs := runs + MapWordsToItems(result.words, images[i].placement, number, |text|);
      text := text + result.text;
    }
    assert images[..|images|] == images;
    page := Anchored(text, runs);
  }

  // ----- What the items select -----

  /** The words of an image that can be anchored: all of them, unless the placement has no extent. */
  function ImageWords(image: PageImage): seq<string> {
    if image.placement.Sized() then TreeWords(image.blocks) else []
  }

  function PageWords(images: seq<PageImage>): seq<string> {
    if images == [] then [] else PageWords(Front(images)) + ImageWords(Last(images))
  }

  function DocumentWords(pages: seq<ScannedPage>): seq<string> {
    if pages == [] then [] else DocumentWords(Front(pages)) + PageWords(Last(pages).images)
  }

  /** The assembled text is blank exactly if the tree has no word; then there is no text at all. */
  lemma BlankIffWordless(blocks: Option<seq<Block>>)
    ensures Trim(Assemble(blocks).text) == [] <==> TreeWords(blocks) == []
    ensures TreeWords(blocks) == [] ==> Assemble(blocks).text == []
  {
    var page := Assemble(blocks);
    AssembledWordsAreExact(blocks);
    AssembledTextsAreTreeWords(blocks);
    if page.words != [] {
      assert WordAt(page.text, page.words, Places(blocks), |page.words| - 1);
      assert Last(page.text) == Last(Last(page.words).text);
      TrimOfEnd(page.text);
    }
  }

  lemma TrimOfEnd(s: string)
    requires s != [] && !IsSpace(Last(s))
    ensures Trim(s) != []
  {
    if IsSpace(s[0]) {
      TrimOfEnd(s[1..]);
    }
  }

  lemma AddImageIsExact(s: Anchored, words: seq<string>, image: PageImage, page: nat)
    requires Exact(s, words)
    ensures Exact(AddImage(s, image, page), words + ImageWords(image))
  {
    var result := Assemble(image.blocks);
    var separator := if s.text != [] then "\n" else "";
    if Trim(result.text) == [] {
      BlankIffWordless(image.blocks);
      assert words + ImageWords(image) == words;
    } else {
      var local := MapWordsToItems(result.words, image.placement, page, 0);
      assert s.text + separator == if s.text != [] then s.text + "\n" else s.text;
      MappedItemsShift(result.words, image.placement, page, |s.text + separator|);
      if image.placement.Sized() {
        MappedItemsAnchor(image.blocks, image.placement, page);
        AssembledTextsAreTreeWords(image.blocks);
      }
      AnchorsAppend(s.text, s.items, words, separator, result.text, local, ImageWords(image), "");
      assert s.text + separator + result.text + "" == s.text + separator + result.text;
    }
  }

  lemma {:induction false} PageIsExact(images: seq<PageImage>, page: nat)
    ensures Exact(PageOf(images, page), PageWords(images))
  {
    if images != [] {
      PageIsExact(Front(images), page);
      AddImageIsExact(PageOf(Front(images), page), PageWords(Front(images)), Last(images), page);
    }
  }

  predicate PageIsWordless(images: seq<PageImage>) {
    images == [] || (PageIsWordless(Front(images)) && TreeWords(Last(images).blocks) == [])
  }

  predicate Wordless(pages: seq<ScannedPage>) {
    pages == [] || (Wordless(Front(pages)) && PageIsWordless(Last(pages).images))
  }

  lemma AddedTextIsEmptyIff(s: Anchored, image: PageImage, page: nat)
    ensures AddImage(s, image, page).text == [] <==> s.text == [] && TreeWords(image.blocks) == []
  {
    BlankIffWordless(image.blocks);
    assert Trim([]) == [];
  }

  lemma {:induction false} PageIsEmptyIff(images: seq<PageImage>, page: nat)
    ensures PageOf(images, page).text == [] <==> PageIsWordless(images)
  {
    if images != [] {
      PageIsEmptyIff(Front(images), page);
      AddedTextIsEmptyIff(PageOf(Front(images), page), Last(images), page);
    }
  }

  lemma AddedPageIsEmptyIff(s: Anchored, page: Anchored)
    ensures AddPage(s, page).text == [] <==> s.text == [] && page.text == []
  {}

  /** Recognition comes up empty exactly if no tree of any page has a word. */
  lemma {:induction false} DocumentIsEmptyIff(pages: seq<ScannedPage>)
    ensures Document(pages).text == [] <==> Wordless(pages)
  {
    if pages != [] {
      var page := PageOf(Last(pages).images, Last(pages).number);
      DocumentIsEmptyIff(Front(pages));
      PageIsEmptyIff(Last(pages).images, Last(pages).number);
      AddedPageIsEmptyIff(Document(Front(pages)), page);
    }
  }

  lemma AddPageIsExact(s: Anchored, words: seq<string>, page: Anchored, words': seq<string>)
    requires Exact(s, words) && Exact(page, words')
    ensures Exact(AddPage(s, page), words + words')
  {
    var separator := if s.text != [] then "\n\n" else "";
    if page.text == [] {
      WordsNeedText(page, words');
      assert words + words' == words;
    } else {
      assert s.text + separator == if s.text != [] then s.text + "\n\n" else s.text;
      AnchorsAppend(s.text, s.items, words, separator, page.text, page.items, words', "");
      assert s.text + separator + page.text + "" == s.text + separator + page.text;
    }
  }

  /** Whatever the trees, images and pages: the items select exactly the recognised words, in reading order. */
  lemma {:induction false} DocumentIsExact(pages: seq<ScannedPage>)
    ensures Exact(Document(pages), DocumentWords(pages))
  {
    if pages != [] {
      DocumentIsExact(Front(pages));
      PageIsExact(Last(pages).images, Last(pages).number);
      AddPageIsExact(Document(Front(pages)), DocumentWords(Front(pages)),
                     PageOf(Last(pages).images, Last(pages).number), PageWords(Last(pages).images));
    }
  }

  lemma InOrderHasTheSame(pages: seq<ScannedPage>, page: ScannedPage)
    ensures page in InOrder(pages) <==> page in pages
  {
    Sorting.SortSorts(pages, PageNumber);
    assert page in InOrder(pages) <==> page in multiset(InOrder(pages));
  }

  lemma {:induction false} WordlessIff(pages: seq<ScannedPage>)
    ensures Wordless(pages) <==> forall page :: page in pages ==> PageIsWordless(page.images)
  {
    if pages != [] {
      WordlessIff(Front(pages));
      assert pages == Front(pages) + [Last(pages)];
    }
  }

  lemma WordlessForgetsOrder(pages: seq<ScannedPage>)
    ensures Wordless(InOrder(pages)) <==> Wordless(pages)
  {
    WordlessIff(pages);
    WordlessIff(InOrder(pages));
    forall page: ScannedPage
      ensures page in InOrder(pages) <==> page in pages
    {
      InOrderHasTheSame(pages, page);
    }
  }

  /** The pages come in ascending number, each as often as it was handed over. */
  lemma PagesAscend(pages: seq<ScannedPage>)
    ensures multiset(InOrder(pages)) == multiset(pages)
    ensures forall i, j :: 0 <= i < j < |InOrder(pages)| ==> InOrder(pages)[i].number <= InOrder(pages)[j].number
  {
    Sorting.SortSorts(pages, PageNumber);
    forall i, j | 0 <= i < j < |InOrder(pages)|
      ensures InOrder(pages)[i].number <= InOrder(pages)[j].number
    {
      assert PageNumber(InOrder(pages)[i]) <= PageNumber(InOrder(pages)[j]);
    }
  }

  predicate DistinctNumbers(pages: seq<ScannedPage>) {
    forall i, j :: 0 <= i < j < |pages| ==> pages[i].number != pages[j].number
  }

  /** The order in which pages are handed over makes no difference. */
  lemma DocumentForgetsOrder(pages: seq<ScannedPage>, pages': seq<ScannedPage>)
    requires multiset(pages) == multiset(pages') && DistinctNumbers(pages)
    ensures Document(InOrder(pages)) == Document(InOrder(pages'))
  {
    Sorting.SortForgetsOrder(pages, pages', PageNumber);
  }

  /** Appended to a native text layer, recovered words and native runs both keep their anchors. */
  lemma HybridIsExact(native: Anchored, words: seq<string>, pages: seq<ScannedPage>)
    requires Exact(native, words)
    ensures Exact(AppendRecovered(native, Document(pages)), words + DocumentWords(pages))
  {
    var ocr := Document(pages);
    DocumentIsExact(pages);
    AnchorsAppend(native.text, native.items, words, "", ocr.text, ocr.items, DocumentWords(pages), "\n");
    assert native.text + "" == native.text;
  }

  // ----- What storing the document costs -----

  /** How many records the items are stored in. */
  function Cost(runs: seq<Run>): nat {
    |LineCodec.Encode(ToItems(runs))|
  }

  lemma CostAppend(a: seq<Run>, b: seq<Run>)
    ensures Cost(a + b) <= Cost(a) + Cost(b)
  {
    assert ToItems(a + b) == ToItems(a) + ToItems(b);
    LineCodec.TogetherCostsNoMore(ToItems(a), ToItems(b));
  }

  lemma CostShift(runs: seq<Run>, d: nat)
    ensures Cost(ShiftAll(runs, d)) == Cost(runs)
  {
    LineCodec.RecordsByHeaders(ToItems(ShiftAll(runs, d)), ToItems(runs));
  }

  predicate UprightImage(image: PageImage) {
    image.placement.Sized() ==> image.placement.b == 0.0
  }

  predicate UprightPage(images: seq<PageImage>) {
    forall i :: 0 <= i < |images| ==> UprightImage(images[i])
  }

  function PageLines(images: seq<PageImage>): nat {
    if images == [] then 0 else PageLines(Front(images)) + WordedLines(Tree(Last(images).blocks))
  }

  function DocumentLines(pages: seq<ScannedPage>): nat {
    if pages == [] then 0 else DocumentLines(Front(pages)) + PageLines(Last(pages).images)
  }

  lemma ImageCost(image: PageImage, page: nat, offset: nat)
    requires UprightImage(image)
    ensures Cost(MapWordsToItems(Assemble(image.blocks).words, image.placement, page, offset))
         <= WordedLines(Tree(image.blocks))
  {
    if image.placement.Sized() {
      OneRecordPerLine(image.blocks, image.placement, page, offset);
    }
  }

  lemma AddImageCost(s: Anchored, image: PageImage, page: nat)
    requires UprightImage(image)
    ensures Cost(AddImage(s, image, page).items) <= Cost(s.items) + WordedLines(Tree(image.blocks))
  {
    var words := Assemble(image.blocks).words;
    var offset := |if s.text != [] then s.text + "\n" else s.text|;
    ImageCost(image, page, offset);
    CostAppend(s.items, MapWordsToItems(words, image.placement, page, offset));
  }

  /** A page of upright images is stored in at most one record per recognised line that carries a word. */
  lemma {:induction false} PageCostsOneRecordPerLine(images: seq<PageImage>, page: nat)
    requires UprightPage(images)
    ensures Cost(PageOf(images, page).items) <= PageLines(images)
  {
    if images != [] {
      PageCostsOneRecordPerLine(Front(images), page);
      AddImageCost(PageOf(Front(images), page), Last(images), page);
    }
  }

  lemma AddPageCost(s: Anchored, page: Anchored)
    ensures Cost(AddPage(s, page).items) <= Cost(s.items) + Cost(page.items)
  {
    var offset := |if s.text != [] then s.text + "\n\n" else s.text|;
    CostAppend(s.items, ShiftAll(page.items, offset));
    CostShift(page.items, offset);
  }

  /** And so is a document of such pages. */
  lemma {:induction false} DocumentCostsOneRecordPerLine(pages: seq<ScannedPage>)
    requires forall p :: 0 <= p < |pages| ==> UprightPage(pages[p].images)
    ensures Cost(Document(pages).items) <= DocumentLines(pages)
  {
    if pages != [] {
      DocumentCostsOneRecordPerLine(Front(pages));
      PageCostsOneRecordPerLine(Last(pages).images, Last(pages).number);
      AddPageCost(Document(Front(pages)), PageOf(Last(pages).images, Last(pages).number));
    }
  }
}
