/** The whole text of an extracted document, where its items are, and which class it gets. */
module DocumentLayout {
  import opened Prelude
  import opened Strings
  import opened PdfItems
  import opened PdfTables
  import opened TableMarkdown
  import opened FormFields
  import opened PageShaping
  import opened PdfExtraction
  import OcrDocument
  import OcrPlacement
  import TextLayer
  import TextLayout

  // ----- Reshaped pages -----

  /** The page on its own: its runs as the reader lays them out. */
  function Page(content: TextLayer.PageContent, number: nat): Anchored {
    TextLayer.AnchorRuns(content.runs, number)
  }

  /** The page on its own holds a grid. */
  predicate HoldsGrid(content: TextLayer.PageContent, number: nat) {
    var p := Page(content, number);
    Table(p.items, p.text).Some?
  }

  /** A page with a grid is its markdown; any other is its runs and the page break. */
  function ShapedPageText(content: TextLayer.PageContent, number: nat): string {
    var p := Page(content, number);
    match Table(p.items, p.text)
    case Some(rows) => Render(rows, number, 0).text
    case None => Flatten(TextLayout.Pieces(content.runs)) + "\n"
  }

  function CellRects(cells: seq<TableCell>, page: nat): (rects: seq<Rect>)
    ensures |rects| == |cells|
    ensures forall i :: 0 <= i < |cells| ==>
      rects[i] == Rect(page, cells[i].x, cells[i].y, cells[i].width, cells[i].height)
  {
    seq(|cells|, i requires 0 <= i < |cells| =>
      Rect(page, cells[i].x, cells[i].y, cells[i].width, cells[i].height))
  }

  /** A page with a grid has one item over each cell; any other keeps the items of its runs. */
  function ShapedPageRects(content: TextLayer.PageContent, number: nat): seq<Rect> {
    var p := Page(content, number);
    match Table(p.items, p.text)
    case Some(rows) => CellRects(Flatten(rows), number)
    case None => TextLayout.RunRects(content.runs, number)
  }

  function ShapedText(contents: seq<TextLayer.PageContent>): string {
    if contents == [] then [] else ShapedText(Front(contents)) + ShapedPageText(Last(contents), |contents|)
  }

  function ShapedRects(contents: seq<TextLayer.PageContent>): seq<Rect> {
    if contents == [] then [] else ShapedRects(Front(contents)) + ShapedPageRects(Last(contents), |contents|)
  }

  lemma RenderedRects(rows: seq<seq<TableCell>>, page: nat, offset: nat)
    requires forall row, c :: row in rows && c in row ==> c.text != []
    ensures Rects(Render(rows, page, offset).items) == CellRects(Flatten(rows), page)
  {
    RenderedCellsAreAnchored("", rows, page);
    RenderShifts(rows, page, offset);
    RectsShift(Render(rows, page, 0).items, offset);
    var items, cells := Render(rows, page, 0).items, Flatten(rows);
    assert |items| == |cells| && forall i :: 0 <= i < |cells| ==> Carries(items[i], cells[i], page);
  }

  lemma GridPageIs(a: Anchored, contents: seq<TextLayer.PageContent>, k: nat)
    requires k < |contents| == |TextLayer.Pages(contents).pages| && HoldsGrid(contents[k], k + 1)
    requires Spans(TextLayer.Pages(contents), TextLayer.Pages(contents).pages[k])
    ensures var a' := ShapePage(a, TextLayer.Pages(contents), TextLayer.Pages(contents).pages[k]);
      && a'.text == a.text + ShapedPageText(contents[k], k + 1)
      && Rects(a'.items) == Rects(a.items) + ShapedPageRects(contents[k], k + 1)
  {
    var layer, p := TextLayer.Pages(contents), Page(contents[k], k + 1);
    var rows := Table(p.items, p.text).value;
    PageNumberAt(contents, k);
    PageHoldsItsGrid(contents, k);
    TableCellsAreFilled(p.items, p.text);
    RenderShifts(rows, k + 1, |a.text|);
    RenderedRects(rows, k + 1, |a.text|);
    RectsAppend(a.items, Render(rows, k + 1, |a.text|).items);
  }

  lemma LocalRects(items: seq<Run>, from: nat)
    requires forall i :: 0 <= i < |items| ==> from <= items[i].start && from <= items[i].end
    ensures Rects(Local(items, from)) == Rects(items)
  {}

  /** Copying a page slices its text and moves its items. */
  lemma CopiedPageIs(a: Anchored, layer: TextLayer.Layer, info: TextLayer.PageInfo, start: nat, items: seq<Run>)
    requires Spans(layer, info) && OnPage(layer.items, info.pageNumber) == ShiftAll(items, start)
    ensures Verbatim(a, layer, info).text == a.text + layer.text[info.textStart..info.textEnd]
    ensures Rects(Verbatim(a, layer, info).items) == Rects(a.items) + Rects(items)
  {
    OnPageIsSome(layer.items, info.pageNumber);
    var onPage := OnPage(layer.items, info.pageNumber);
    LocalRects(onPage, info.textStart);
    RectsShift(Local(onPage, info.textStart), |a.text|);
    RectsShift(items, start);
    RectsAppend(a.items, ShiftAll(Local(onPage, info.textStart), |a.text|));
  }

  lemma PlainPageIs(a: Anchored, contents: seq<TextLayer.PageContent>, k: nat)
    requires k < |contents| == |TextLayer.Pages(contents).pages| && !HoldsGrid(contents[k], k + 1)
    requires Spans(TextLayer.Pages(contents), TextLayer.Pages(contents).pages[k])
    ensures var a' := ShapePage(a, TextLayer.Pages(contents), TextLayer.Pages(contents).pages[k]);
      && a'.text == a.text + ShapedPageText(contents[k], k + 1)
      && Rects(a'.items) == Rects(a.items) + ShapedPageRects(contents[k], k + 1)
  {
    var layer, p := TextLayer.Pages(contents), Page(contents[k], k + 1);
    PageNumberAt(contents, k);
    PageHoldsItsGrid(contents, k);
    TextLayout.LayerDescribes(contents, k);
    TextLayout.PageIsItsRuns(contents[k].runs, k + 1);
    PageItemsAt(contents, k);
    CopiedPageIs(a, layer, layer.pages[k], PageStart(contents, k), p.items);
  }

  lemma OnePageIs(a: Anchored, contents: seq<TextLayer.PageContent>, k: nat)
    requires k < |contents| == |TextLayer.Pages(contents).pages|
    requires Spans(TextLayer.Pages(contents), TextLayer.Pages(contents).pages[k])
    ensures var a' := ShapePage(a, TextLayer.Pages(contents), TextLayer.Pages(contents).pages[k]);
      && a'.text == a.text + ShapedPageText(contents[k], k + 1)
      && Rects(a'.items) == Rects(a.items) + ShapedPageRects(contents[k], k + 1)
  {
    if HoldsGrid(contents[k], k + 1) {
      GridPageIs(a, contents, k);
    } else {
      PlainPageIs(a, contents, k);
    }
  }

  lemma NextPageIs(contents: seq<TextLayer.PageContent>, n: nat)
    requires 0 < n <= |contents|
    ensures ShapedText(contents[..n]) == ShapedText(contents[..n - 1]) + ShapedPageText(contents[n - 1], n)
    ensures ShapedRects(contents[..n]) == ShapedRects(contents[..n - 1]) + ShapedPageRects(contents[n - 1], n)
  {
    assert Front(contents[..n]) == contents[..n - 1];
  }

  lemma {:induction false} FirstPagesAre(contents: seq<TextLayer.PageContent>, n: nat)
    requires n <= |contents| == |TextLayer.Pages(contents).pages| && AllSpan(TextLayer.Pages(contents))
    ensures ShapePages(TextLayer.Pages(contents), TextLayer.Pages(contents).pages[..n]).text
         == ShapedText(contents[..n])
    ensures Rects(ShapePages(TextLayer.Pages(contents), TextLayer.Pages(contents).pages[..n]).items)
         == ShapedRects(contents[..n])
  {
    if n > 0 {
      var layer := TextLayer.Pages(contents);
      FirstPagesAre(contents, n - 1);
      NextPageShaped(layer, n - 1);
      NextPageIs(contents, n);
      OnePageIs(ShapePages(layer, layer.pages[..n - 1]), contents, n - 1);
    }
  }

  lemma AllPagesAre(contents: seq<TextLayer.PageContent>)
    requires AllSpan(TextLayer.Pages(contents))
    ensures ShapePages(TextLayer.Pages(contents), TextLayer.Pages(contents).pages).text == ShapedText(contents)
    ensures Rects(ShapePages(TextLayer.Pages(contents), TextLayer.Pages(contents).pages).items) == ShapedRects(contents)
  {
    var pages := TextLayer.Pages(contents).pages;
    PageCount(contents);
    FirstPagesAre(contents, |contents|);
    assert pages[..|contents|] == pages && contents[..|contents|] == contents;
  }

  // ----- The native part -----

  predicate SomeGrid(contents: seq<TextLayer.PageContent>) {
    exists k :: 0 <= k < |contents| && HoldsGrid(contents[k], k + 1)
  }

  predicate SomeScan(contents: seq<TextLayer.PageContent>) {
    exists k :: 0 <= k < |contents| && TextLayer.RunTexts(contents[k].runs) == []
  }

  /** A form keeps the pages and adds its lines; otherwise pages with a grid are reshaped. */
  function NativeText(contents: seq<TextLayer.PageContent>, fields: seq<FormField>): string {
    if fields != [] then PlainText(contents) + TextLayout.FieldLines(fields) else ShapedText(contents)
  }

  function PlainText(contents: seq<TextLayer.PageContent>): string {
    if contents == [] then []
    else PlainText(Front(contents)) + (Flatten(TextLayout.Pieces(Last(contents).runs)) + "\n")
  }

  function NativeRects(contents: seq<TextLayer.PageContent>, fields: seq<FormField>): seq<Rect> {
    if fields != [] then TextLayout.PageRects(contents) + TextLayout.FieldRects(fields) else ShapedRects(contents)
  }

  lemma {:induction false} LayerTextIs(contents: seq<TextLayer.PageContent>)
    ensures TextLayer.Pages(contents).text == PlainText(contents)
  {
    if contents != [] {
      LayerTextIs(Front(contents));
      TextLayout.LayerKeepsRects(Front(contents));
      TextLayout.AddedPageText(TextLayer.Pages(Front(contents)), Last(contents));
      TextLayout.PageIsItsRuns(Last(contents).runs, |contents|);
    }
  }

  lemma GridsAreFound(contents: seq<TextLayer.PageContent>)
    ensures AnyTable(TextLayer.Pages(contents)) <==> SomeGrid(contents)
  {
    var layer := TextLayer.Pages(contents);
    PageCount(contents);
    forall k | 0 <= k < |contents|
      ensures HasTable(layer, layer.pages[k]) <==> HoldsGrid(contents[k], k + 1)
    {
      PageHoldsItsGrid(contents, k);
    }
    if k :| 0 <= k < |contents| && HoldsGrid(contents[k], k + 1) {
      assert HasTable(layer, layer.pages[k]);
    }
  }

  lemma {:induction false} ShapedWithoutGrids(contents: seq<TextLayer.PageContent>)
    requires !SomeGrid(contents)
    ensures ShapedText(contents) == PlainText(contents) && ShapedRects(contents) == TextLayout.PageRects(contents)
  {
    if contents != [] {
      assert !HoldsGrid(contents[|contents| - 1], |contents|);
      forall k | 0 <= k < |Front(contents)|
        ensures !HoldsGrid(Front(contents)[k], k + 1)
      {
        assert Front(contents)[k] == contents[k];
      }
      ShapedWithoutGrids(Front(contents));
    }
  }

  lemma PlainLayout(contents: seq<TextLayer.PageContent>)
    ensures TextLayer.Pages(contents).text == PlainText(contents)
    ensures Rects(TextLayer.Pages(contents).items) == TextLayout.PageRects(contents)
  {
    LayerTextIs(contents);
    TextLayout.LayerKeepsRects(contents);
  }

  lemma LayerSpans(contents: seq<TextLayer.PageContent>)
    requires TextLayer.TextLayerOf(contents).Some?
    ensures AllSpan(TextLayer.Pages(contents))
  {
    TextLayer.TextLayerIsSound(contents);
    SoundLayersSpan(TextLayer.Pages(contents), TextLayer.AllRunTexts(contents));
  }

  lemma FormLayout(contents: seq<TextLayer.PageContent>, fields: seq<FormField>)
    requires TextLayer.TextLayerOf(contents).Some? && fields != []
    ensures Native(contents, fields).Extract?
    ensures Native(contents, fields).content.text == NativeText(contents, fields)
    ensures Rects(Native(contents, fields).content.items) == NativeRects(contents, fields)
  {
    PlainLayout(contents);
    TextLayout.FoldedFormIs(Anchored(TextLayer.Pages(contents).text, TextLayer.Pages(contents).items), fields);
  }

  lemma PagesLayout(contents: seq<TextLayer.PageContent>)
    requires TextLayer.TextLayerOf(contents).Some?
    ensures Native(contents, []).Extract?
    ensures Native(contents, []).content.text == ShapedText(contents)
    ensures Rects(Native(contents, []).content.items) == ShapedRects(contents)
  {
    LayerSpans(contents);
    GridsAreFound(contents);
    if SomeGrid(contents) {
      AllPagesAre(contents);
    } else {
      PlainLayout(contents);
      ShapedWithoutGrids(contents);
    }
  }

  lemma NativeLayout(contents: seq<TextLayer.PageContent>, fields: seq<FormField>)
    requires TextLayer.TextLayerOf(contents).Some?
    ensures Native(contents, fields).Extract?
    ensures Native(contents, fields).content.text == NativeText(contents, fields)
    ensures Rects(Native(contents, fields).content.items) == NativeRects(contents, fields)
  {
    if fields == [] {
      PagesLayout(contents);
    } else {
      FormLayout(contents, fields);
    }
  }

  lemma NativeClass(contents: seq<TextLayer.PageContent>, fields: seq<FormField>)
    requires TextLayer.TextLayerOf(contents).Some?
    ensures var e := Native(contents, fields);
      && e.Extract? && e.unread == []
      && (fields != [] ==> e.pdfClass == E && e.how == "form")
      && (fields == [] && SomeGrid(contents) ==> e.pdfClass == D && e.how == "table")
      && (fields == [] && !SomeGrid(contents) ==> e.pdfClass == A && e.how == "pdf-text-layer")
  {
    GridsAreFound(contents);
  }

  // ----- The whole document -----

  lemma {:induction false} UnreadIffScan(pages: seq<TextLayer.PageInfo>)
    ensures Unread(pages) == [] <==> forall k :: 0 <= k < |pages| ==> pages[k].hasTextLayer
  {
    if pages != [] {
      UnreadIffScan(Front(pages));
      assert pages == Front(pages) + [Last(pages)];
    }
  }

  lemma ScansAreUnread(contents: seq<TextLayer.PageContent>)
    ensures Unread(TextLayer.Pages(contents).pages) != [] <==> SomeScan(contents)
  {
    var pages := TextLayer.Pages(contents).pages;
    TextLayout.LayerIsItsPages(contents);
    UnreadIffScan(pages);
    forall k | 0 <= k < |contents|
      ensures pages[k].hasTextLayer <==> TextLayer.RunTexts(contents[k].runs) != []
    {
      assert TextLayout.Describes(pages[k], TextLayer.Pages(contents).text, contents[k], k + 1);
    }
  }

  /** The pages the recogniser is asked for, in order: all, or those without text. */
  function Asked(contents: seq<TextLayer.PageContent>, scanned: seq<OcrDocument.ScannedPage>):
    seq<OcrDocument.ScannedPage>
  {
    if TextLayer.AllRunTexts(contents) == [] then OcrDocument.InOrder(scanned)
    else OcrDocument.InOrder(PagesIn(scanned, Unread(TextLayer.Pages(contents).pages)))
  }

  /** Text and places: the native part, then what was recognised and a line break. */
  lemma ExtractionLayout(contents: seq<TextLayer.PageContent>, fields: seq<FormField>,
                         scanned: seq<OcrDocument.ScannedPage>)
    requires Filling(fields) && ExtractionOf(contents, fields, scanned).Extract?
    ensures var c, asked := ExtractionOf(contents, fields, scanned).content, Asked(contents, scanned);
      var recovered := Join(OcrPlacement.PageTexts(asked), "\n\n");
      if TextLayer.AllRunTexts(contents) == [] then
        c.text == recovered && Rects(c.items) == OcrPlacement.DocumentRects(asked)
      else
        && c.text == NativeText(contents, fields) + (if recovered == [] then [] else recovered + "\n")
        && Rects(c.items) == NativeRects(contents, fields) + OcrPlacement.DocumentRects(asked)
  {
    var asked := Asked(contents, scanned);
    TextLayer.TextLayerIsSound(contents);
    OcrPlacement.DocumentTextJoins(asked);
    OcrPlacement.DocumentKeepsRects(asked);
    OcrDocument.DocumentIsExact(asked);
    if TextLayer.AllRunTexts(contents) != [] {
      NativeLayout(contents, fields);
      HybridLayout(Native(contents, fields).content, OcrDocument.Document(asked));
      if OcrDocument.Document(asked).text == [] {
        WordsNeedText(OcrDocument.Document(asked), OcrDocument.DocumentWords(asked));
      }
      NothingAsked(contents, scanned);
      assert NativeRects(contents, fields) + [] == NativeRects(contents, fields);
      assert NativeText(contents, fields) + [] == NativeText(contents, fields);
    }
  }

  lemma NothingAsked(contents: seq<TextLayer.PageContent>, scanned: seq<OcrDocument.ScannedPage>)
    requires TextLayer.AllRunTexts(contents) != []
    ensures Unread(TextLayer.Pages(contents).pages) == [] ==> Asked(contents, scanned) == []
  {
    NoPagesIn(scanned);
  }

  lemma HybridLayout(native: Anchored, ocr: Anchored)
    ensures OcrDocument.AppendRecovered(native, ocr).text == native.text + (ocr.text + "\n")
    ensures Rects(OcrDocument.AppendRecovered(native, ocr).items) == Rects(native.items) + Rects(ocr.items)
  {
    assert native.text + ocr.text + "\n" == native.text + (ocr.text + "\n");
    RectsAppend(native.items, ShiftAll(ocr.items, |native.text|));
    RectsShift(ocr.items, |native.text|);
  }

  /**
   * The class: B without any text layer; with one, E for a form, otherwise D for a grid, otherwise C if some page
   * has no text of its own, otherwise A. The method is recognition whenever that recovered anything.
   */
  lemma ExtractionClass(contents: seq<TextLayer.PageContent>, fields: seq<FormField>,
                        scanned: seq<OcrDocument.ScannedPage>)
    requires ExtractionOf(contents, fields, scanned).Extract?
    ensures var e, asked := ExtractionOf(contents, fields, scanned), Asked(contents, scanned);
      var recovered := Join(OcrPlacement.PageTexts(asked), "\n\n") != [];
      if TextLayer.AllRunTexts(contents) == [] then e.pdfClass == B && e.how == "ocr" && e.unread == []
      else
        && (fields != [] ==> e.pdfClass == E)
        && (fields == [] && SomeGrid(contents) ==> e.pdfClass == D)
        && (fields == [] && !SomeGrid(contents) ==> e.pdfClass == if SomeScan(contents) then C else A)
        && (recovered ==> e.how == "ocr")
        && (!recovered ==>
              e.how == if fields != [] then "form" else if SomeGrid(contents) then "table" else "pdf-text-layer")
  {
    var asked := Asked(contents, scanned);
    TextLayer.TextLayerIsSound(contents);
    OcrPlacement.DocumentTextJoins(asked);
    if TextLayer.AllRunTexts(contents) != [] {
      NativeClass(contents, fields);
      ScansAreUnread(contents);
      NothingAsked(contents, scanned);
      assert asked == [] ==> OcrPlacement.PageTexts(asked) == [];
    }
  }
}
