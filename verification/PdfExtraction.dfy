/** One document, by class: the classification in `extractPdf`, and which pages it reports as unread. */
module PdfExtraction {
  import opened Prelude
  import opened PdfItems
  import opened OcrDocument
  import opened FormFields
  import opened PageShaping
  import TextLayer

  // ----- The whole document -----

  datatype PdfClass = A | B | C | D | E

  datatype Extraction =
    | Declined(reason: string)
    | Extract(content: Anchored, how: string, pdfClass: PdfClass, unread: seq<nat>)

  function Unread(pages: seq<TextLayer.PageInfo>): seq<nat> {
    if pages == [] then []
    else Unread(Front(pages)) + if Last(pages).hasTextLayer then [] else [Last(pages).pageNumber]
  }

  /** The scanned pages with these numbers. */
  function PagesIn(scanned: seq<ScannedPage>, numbers: seq<nat>): seq<ScannedPage> {
    if scanned == [] then []
    else PagesIn(Front(scanned), numbers) + if Last(scanned).number in numbers then [Last(scanned)] else []
  }

  /** The pages no recovered run is on. */
  function StillUnread(numbers: seq<nat>, recovered: seq<Run>): seq<nat> {
    if numbers == [] then []
    else
      StillUnread(Front(numbers), recovered)
      + if HasItemOn(recovered, Last(numbers)) then [] else [Last(numbers)]
  }

  method ExtractPdf(contents: seq<TextLayer.PageContent>, fields: seq<FormField>, scanned: seq<ScannedPage>)
    returns (e: Extraction)
    requires Filling(fields)
    ensures e == ExtractionOf(contents, fields, scanned)
  {
    TextLayer.TextLayerIsSound(contents);
    var layer := TextLayer.ExtractTextLayer(contents);
    if layer.None? {
      var ocr := OcrPages(scanned);
      if ocr.text == [] {
        return Declined("no-text-layer");
      }
      return Extract(ocr, "ocr", B, []);
    }
    SoundLayersSpan(layer.value, TextLayer.AllRunTexts(contents));
    var native := Anchored(layer.value.text, layer.value.items);
    var shaped := Extract(native, "pdf-text-layer", A, []);
    if |fields| > 0 {
      var folded := FoldFormFields(native, fields);
      shaped := Extract(folded, "form", E, []);
    } else {
      var tables := ShapeTables(layer.value);
      if tables.Some? {
        shaped := Extract(tables.value, "table", D, []);
      }
    }
    var unread := Unread(layer.value.pages);
    if unread == [] {
      return shaped;
    }
    var recovered := OcrPages(PagesIn(scanned, unread));
    var stillUnread := StillUnread(unread, recovered.items);
    var hybrid := if shaped.pdfClass == A then C else shaped.pdfClass;
    if recovered.text == [] {
      return shaped.(unread := stillUnread, pdfClass := hybrid);
    }
    var text := shaped.content.text + recovered.text + "\n";
    var items := shaped.content.items + ShiftAll(recovered.items, |shaped.content.text|);
    return Extract(Anchored(text, items), "ocr", hybrid, stillUnread);
  }

  /** What the native part becomes: a form outranks a table, a table outranks prose. */
  function Native(contents: seq<TextLayer.PageContent>, fields: seq<FormField>): Extraction
    requires TextLayer.TextLayerOf(contents).Some?
  {
    TextLayer.TextLayerIsSound(contents);
    var layer := TextLayer.TextLayerOf(contents).value;
    SoundLayersSpan(layer, TextLayer.AllRunTexts(contents));
    var plain := Anchored(layer.text, layer.items);
    if fields != [] then Extract(FoldFields(plain, fields), "form", E, [])
    else match Shaped(layer)
      case Some(tables) => Extract(tables, "table", D, [])
      case None => Extract(plain, "pdf-text-layer", A, [])
  }

  function ExtractionOf(contents: seq<TextLayer.PageContent>, fields: seq<FormField>,
                        scanned: seq<ScannedPage>): Extraction
  {
    match TextLayer.TextLayerOf(contents)
    case None =>
      var ocr := Document(InOrder(scanned));
      if ocr.text == [] then Declined("no-text-layer") else Extract(ocr, "ocr", B, [])
    case Some(layer) =>
      var native, unread := Native(contents, fields), Unread(layer.pages);
      if unread == [] then native
      else
        var recovered := Document(InOrder(PagesIn(scanned, unread)));
        var hybrid := if native.pdfClass == A then C else native.pdfClass;
        var stillUnread := StillUnread(unread, recovered.items);
        if recovered.text == [] then native.(pdfClass := hybrid, unread := stillUnread)
        else Extract(AppendRecovered(native.content, recovered), "ocr", hybrid, stillUnread)
  }

  /** What the native part should select. */
  function NativeWords(contents: seq<TextLayer.PageContent>, fields: seq<FormField>): seq<string>
    requires TextLayer.TextLayerOf(contents).Some?
  {
    if fields != [] then TextLayer.AllRunTexts(contents) + Values(fields) else ShapedWords(contents)
  }

  /** What the document should select: the native words, then the words of the trees of the pages without any. */
  function Words(contents: seq<TextLayer.PageContent>, fields: seq<FormField>, scanned: seq<ScannedPage>): seq<string> {
    match TextLayer.TextLayerOf(contents)
    case None => DocumentWords(InOrder(scanned))
    case Some(layer) => NativeWords(contents, fields) + DocumentWords(InOrder(PagesIn(scanned, Unread(layer.pages))))
  }

  lemma NativeIsExact(contents: seq<TextLayer.PageContent>, fields: seq<FormField>)
    requires TextLayer.TextLayerOf(contents).Some? && Filling(fields)
    ensures Exact(Native(contents, fields).content, NativeWords(contents, fields))
  {
    TextLayer.TextLayerIsSound(contents);
    var layer, words := TextLayer.TextLayerOf(contents).value, TextLayer.AllRunTexts(contents);
    SoundLayersSpan(layer, words);
    if fields != [] {
      FoldedFieldsAreExact(Anchored(layer.text, layer.items), words, fields);
    } else {
      ShapedIsExact(layer, words, layer.pages);
      LayerSaysThePages(contents);
      if !AnyTable(layer) {
        WithoutGridsNothingChanges(contents, |contents|);
        assert contents[..|contents|] == contents;
      }
    }
  }

  lemma {:induction false} NoPagesIn(scanned: seq<ScannedPage>)
    ensures PagesIn(scanned, []) == []
  {
    if scanned != [] {
      NoPagesIn(Front(scanned));
    }
  }

  /**
   * Every extraction is exact, whatever its class: item by item it selects the words of the document, in order.
   * It is declined exactly if no run of any page carries text and no recognition tree has a word.
   */
  lemma ExtractionIsExact(contents: seq<TextLayer.PageContent>, fields: seq<FormField>, scanned: seq<ScannedPage>)
    requires Filling(fields)
    ensures var e := ExtractionOf(contents, fields, scanned);
      && (e.Declined? <==> TextLayer.AllRunTexts(contents) == [] && Wordless(scanned))
      && (e.Declined? ==> e.reason == "no-text-layer")
      && (e.Extract? ==> Exact(e.content, Words(contents, fields, scanned)))
  {
    TextLayer.TextLayerIsSound(contents);
    match TextLayer.TextLayerOf(contents)
    case None =>
      DocumentIsExact(InOrder(scanned));
      DocumentIsEmptyIff(InOrder(scanned));
      WordlessForgetsOrder(scanned);
    case Some(layer) =>
      var unread, native := Unread(layer.pages), NativeWords(contents, fields);
      NativeIsExact(contents, fields);
      NoPagesIn(scanned);
      var pages := InOrder(PagesIn(scanned, unread));
      DocumentIsExact(pages);
      HybridIsExact(Native(contents, fields).content, native, pages);
      if unread == [] || Document(pages).text == [] {
        if unread != [] {
          WordsNeedText(Document(pages), DocumentWords(pages));
        }
        assert native + [] == native;
      }
  }

  // ----- Which pages are reported unread -----

  /** Some scanned page of this number has a word that could be anchored. */
  predicate HasWordOn(scanned: seq<ScannedPage>, page: nat) {
    exists p :: p in scanned && WordedAs(p, page)
  }

  predicate WordedAs(p: ScannedPage, page: nat) {
    p.number == page && PageWords(p.images) != []
  }

  lemma {:induction false} PageRunsAreOnThePage(images: seq<PageImage>, page: nat)
    ensures forall i :: 0 <= i < |PageOf(images, page).items| ==> PageOf(images, page).items[i].page == page
  {
    if images != [] {
      PageRunsAreOnThePage(Front(images), page);
    }
  }

  lemma HasItemOnAppend(a: seq<Run>, b: seq<Run>, page: nat)
    ensures HasItemOn(a + b, page) <==> HasItemOn(a, page) || HasItemOn(b, page)
  {
    if HasItemOn(a, page) {
      var i :| 0 <= i < |a| && a[i].page == page;
      assert (a + b)[i] == a[i];
    }
    if HasItemOn(b, page) {
      var i :| 0 <= i < |b| && b[i].page == page;
      assert (a + b)[|a| + i] == b[i];
    }
  }

  lemma ShiftKeepsPages(runs: seq<Run>, offset: nat, page: nat)
    ensures HasItemOn(ShiftAll(runs, offset), page) <==> HasItemOn(runs, page)
  {
    if HasItemOn(runs, page) {
      var i :| 0 <= i < |runs| && runs[i].page == page;
      assert ShiftAll(runs, offset)[i].page == page;
    }
  }

  lemma PageHasItemOn(p: ScannedPage, page: nat)
    ensures HasItemOn(PageOf(p.images, p.number).items, page) <==> p.number == page && PageWords(p.images) != []
  {
    var runs := PageOf(p.images, p.number).items;
    PageRunsAreOnThePage(p.images, p.number);
    PageIsExact(p.images, p.number);
    assert runs != [] ==> runs[0].page == p.number;
  }

  lemma HasWordOnSnoc(pages: seq<ScannedPage>, p: ScannedPage, page: nat)
    ensures HasWordOn(pages + [p], page) <==> HasWordOn(pages, page) || WordedAs(p, page)
  {
    assert p in pages + [p];
    assert forall q :: q in pages + [p] <==> q in pages || q == p;
  }

  lemma AddedPageRuns(s: Anchored, p: ScannedPage, page: nat)
    ensures HasItemOn(AddPage(s, PageOf(p.images, p.number)).items, page)
       <==> HasItemOn(s.items, page) || (p.number == page && PageWords(p.images) != [])
  {
    var a := PageOf(p.images, p.number);
    PageHasItemOn(p, page);
    if a.text == [] {
      PageIsExact(p.images, p.number);
      WordsNeedText(a, PageWords(p.images));
    } else {
      var offset := |AddPage(s, a).text| - |a.text|;
      ShiftKeepsPages(a.items, offset, page);
      HasItemOnAppend(s.items, ShiftAll(a.items, offset), page);
    }
  }

  lemma {:induction false} DocumentHasItemOn(pages: seq<ScannedPage>, page: nat)
    ensures HasItemOn(Document(pages).items, page) <==> HasWordOn(pages, page)
  {
    if pages != [] {
      DocumentHasItemOn(Front(pages), page);
      AddedPageRuns(Document(Front(pages)), Last(pages), page);
      HasWordOnSnoc(Front(pages), Last(pages), page);
      assert pages == Front(pages) + [Last(pages)];
    }
  }

  lemma WordOnForgetsOrder(scanned: seq<ScannedPage>, page: nat)
    ensures HasWordOn(InOrder(scanned), page) <==> HasWordOn(scanned, page)
  {
    forall p: ScannedPage
      ensures p in InOrder(scanned) <==> p in scanned
    {
      InOrderHasTheSame(scanned, p);
    }
  }

  lemma PagesInSnoc(scanned: seq<ScannedPage>, p: ScannedPage, numbers: seq<nat>)
    ensures PagesIn(scanned + [p], numbers) == PagesIn(scanned, numbers) + if p.number in numbers then [p] else []
  {
    assert Front(scanned + [p]) == scanned;
  }

  lemma WordOnNextPage(scanned: seq<ScannedPage>, p: ScannedPage, numbers: seq<nat>, page: nat)
    requires HasWordOn(PagesIn(scanned, numbers), page) <==> page in numbers && HasWordOn(scanned, page)
    ensures HasWordOn(PagesIn(scanned + [p], numbers), page) <==> page in numbers && HasWordOn(scanned + [p], page)
  {
    HasWordOnSnoc(scanned, p, page);
    PagesInSnoc(scanned, p, numbers);
    if p.number in numbers {
      HasWordOnSnoc(PagesIn(scanned, numbers), p, page);
    } else {
      assert PagesIn(scanned, numbers) + [] == PagesIn(scanned, numbers);
    }
  }

  lemma {:induction false} WordOnSelectedPage(scanned: seq<ScannedPage>, numbers: seq<nat>, page: nat)
    ensures HasWordOn(PagesIn(scanned, numbers), page) <==> page in numbers && HasWordOn(scanned, page)
  {
    if scanned != [] {
      WordOnSelectedPage(Front(scanned), numbers, page);
      WordOnNextPage(Front(scanned), Last(scanned), numbers, page);
      assert scanned == Front(scanned) + [Last(scanned)];
    }
  }

  lemma {:induction false} StillUnreadIs(numbers: seq<nat>, recovered: seq<Run>, page: nat)
    ensures page in StillUnread(numbers, recovered) <==> page in numbers && !HasItemOn(recovered, page)
  {
    if numbers != [] {
      StillUnreadIs(Front(numbers), recovered, page);
      assert numbers == Front(numbers) + [Last(numbers)];
    }
  }

  lemma UnreadSnoc(pages: seq<TextLayer.PageInfo>, info: TextLayer.PageInfo, page: nat)
    ensures page in Unread(pages + [info]) <==> page in Unread(pages) || (!info.hasTextLayer && info.pageNumber == page)
  {
    assert Front(pages + [info]) == pages;
  }

  lemma LastInfo(l: TextLayer.Layer, content: TextLayer.PageContent)
    ensures var pages := TextLayer.AddPage(l, content).pages;
      && pages == l.pages + [Last(pages)] && Last(pages).pageNumber == |l.pages| + 1
      && (Last(pages).hasTextLayer <==> TextLayer.RunTexts(content.runs) != [])
  {
    TextLayer.PageAnchorsItsRuns(content.runs, |l.pages| + 1);
  }

  lemma UnreadAfter(l: TextLayer.Layer, content: TextLayer.PageContent, page: nat)
    ensures page in Unread(TextLayer.AddPage(l, content).pages)
       <==> page in Unread(l.pages) || (page == |l.pages| + 1 && TextLayer.RunTexts(content.runs) == [])
  {
    LastInfo(l, content);
    UnreadSnoc(l.pages, Last(TextLayer.AddPage(l, content).pages), page);
  }

  /** The page is one of these and none of its runs carries text. */
  predicate HasNoText(contents: seq<TextLayer.PageContent>, page: nat) {
    1 <= page <= |contents| && TextLayer.RunTexts(contents[page - 1].runs) == []
  }

  lemma HasNoTextSnoc(contents: seq<TextLayer.PageContent>, page: nat)
    requires contents != []
    ensures HasNoText(contents, page) <==>
      HasNoText(Front(contents), page) || (page == |contents| && TextLayer.RunTexts(Last(contents).runs) == [])
  {
    assert 1 <= page < |contents| ==> Front(contents)[page - 1] == contents[page - 1];
  }

  lemma {:induction false} UnreadPagesAre(contents: seq<TextLayer.PageContent>, page: nat)
    ensures page in Unread(TextLayer.Pages(contents).pages) <==> HasNoText(contents, page)
  {
    if contents != [] {
      var before := TextLayer.Pages(Front(contents));
      UnreadPagesAre(Front(contents), page);
      PageCount(Front(contents));
      UnreadAfter(before, Last(contents), page);
      HasNoTextSnoc(contents, page);
      assert TextLayer.Pages(contents) == TextLayer.AddPage(before, Last(contents));
    }
  }

  /**
   * A page is reported unread exactly if no run of it carries text and none of its images gave a word that could
   * be anchored.
   */
  lemma UnreadIsExact(contents: seq<TextLayer.PageContent>, fields: seq<FormField>, scanned: seq<ScannedPage>,
                      page: nat)
    requires TextLayer.TextLayerOf(contents).Some?
    ensures var e := ExtractionOf(contents, fields, scanned);
      e.Extract? &&
      (page in e.unread <==>
        HasNoText(contents, page) && !HasWordOn(scanned, page))
  {
    var unread := Unread(TextLayer.Pages(contents).pages);
    var recovered := Document(InOrder(PagesIn(scanned, unread)));
    UnreadField(contents, fields, scanned);
    UnreadPagesAre(contents, page);
    StillUnreadIs(unread, recovered.items, page);
    DocumentHasItemOn(InOrder(PagesIn(scanned, unread)), page);
    WordOnForgetsOrder(PagesIn(scanned, unread), page);
    WordOnSelectedPage(scanned, unread, page);
  }

  lemma UnreadField(contents: seq<TextLayer.PageContent>, fields: seq<FormField>, scanned: seq<ScannedPage>)
    requires TextLayer.TextLayerOf(contents).Some?
    ensures var e, unread := ExtractionOf(contents, fields, scanned), Unread(TextLayer.Pages(contents).pages);
      e.Extract? && e.unread == StillUnread(unread, Document(InOrder(PagesIn(scanned, unread))).items)
  {
    assert Native(contents, fields).Extract? && Native(contents, fields).unread == [];
  }
}
