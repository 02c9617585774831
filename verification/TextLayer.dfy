/** Reading a native text layer: `anchorRuns` and the page loop of `extractPdfTextLayer`. */
module TextLayer {
  import opened Prelude
  import opened Strings
  import opened PdfItems

  datatype TextRun = TextRun(str: string, x: real, y: real, width: real, height: real, hasEOL: bool)
  datatype PageContent = PageContent(runs: seq<TextRun>, widthPt: real, heightPt: real)
  datatype PageInfo = PageInfo(pageNumber: nat, widthPt: real, heightPt: real,
                               textStart: nat, textEnd: nat, hasTextLayer: bool)
  datatype Layer = Layer(pages: seq<PageInfo>, text: string, items: seq<Run>)

  /** One more run of a page, at offsets local to the page. */
  function AddRun(p: Anchored, run: TextRun, page: nat): Anchored {
    if Trim(run.str) != [] then
      Anchored(p.text + run.str + (if run.hasEOL then "\n" else " "),
               p.items + [Run(|p.text|, |p.text + run.str|, page, run.x, run.y, run.width, run.height)])
    else if run.hasEOL then p.(text := p.text + "\n")
    else p
  }

  function AnchorRuns(runs: seq<TextRun>, page: nat): Anchored {
    if runs == [] then Anchored("", []) else AddRun(AnchorRuns(Front(runs), page), Last(runs), page)
  }

  function AddPage(l: Layer, content: PageContent): Layer {
    var number, start := |l.pages| + 1, |l.text|;
    var page := AnchorRuns(content.runs, number);
    var text := l.text + page.text + "\n";
    Layer(l.pages + [PageInfo(number, content.widthPt, content.heightPt, start, |text|, page.items != [])],
          text,
          l.items + ShiftAll(page.items, start))
  }

  function Pages(contents: seq<PageContent>): Layer {
    if contents == [] then Layer([], "", []) else AddPage(Pages(Front(contents)), Last(contents))
  }

  function TextLayerOf(contents: seq<PageContent>): Option<Layer> {
    var l := Pages(contents);
    if exists i :: 0 <= i < |l.pages| && l.pages[i].hasTextLayer then Some(l) else None
  }

  method AnchorPage(runs: seq<TextRun>, page: nat) returns (p: Anchored)
    ensures p == AnchorRuns(runs, page)
  {
    var text, items := "", [];
    for i := 0 to |runs|
      invariant Anchored(text, items) == AnchorRuns(runs[..i], page)
    {
      assert Front(runs[..i + 1]) == runs[..i];
      var run := runs[i];
      if Trim(run.str) != [] {
        var start := |text|;
        text := text + run.str;
        items := items + [Run(start, |text|, page, run.x, run.y, run.width, run.height)];
        text := text + (if run.hasEOL then "\n" else " ");
      } else if run.hasEOL {
        text := text + "\n";
      }
    }
    assert runs[..|runs|] == runs;
    p := Anchored(text, items);
  }

  method ExtractTextLayer(contents: seq<PageContent>) returns (layer: Option<Layer>)
    ensures layer == TextLayerOf(contents)
  {
    var pages, items, text := [], [], "";
    for p := 0 to |contents|
      invariant Layer(pages, text, items) == Pages(contents[..p]) && |pages| == p
    {
      assert Front(contents[..p + 1]) == contents[..p];
      var pageTextStart := |text|;
      var page := AnchorPage(contents[p].runs, p + 1);
      items := PushShifted(items, page.items, pageTextStart);
      text := text + page.text;
      text := text + "\n";
      pages := pages + [PageInfo(p + 1, contents[p].widthPt, contents[p].heightPt,
                                 pageTextStart, |text|, page.items != [])];
    }
    assert contents[..|contents|] == contents;
    layer := if exists i :: 0 <= i < |pages| && pages[i].hasTextLayer then Some(Layer(pages, text, items)) else None;
  }

  // ----- Offsets -----

  /** The runs that carry text, in order. */
  function RunTexts(runs: seq<TextRun>): seq<string> {
    if runs == [] then []
    else RunTexts(Front(runs)) + if Trim(Last(runs).str) != [] then [Last(runs).str] else []
  }

  function AllRunTexts(contents: seq<PageContent>): seq<string> {
    if contents == [] then [] else AllRunTexts(Front(contents)) + RunTexts(Last(contents).runs)
  }

  lemma {:induction false} PageAnchorsItsRuns(runs: seq<TextRun>, page: nat)
    ensures var p := AnchorRuns(runs, page);
      Anchors(p.text, p.items, RunTexts(runs)) && forall i :: 0 <= i < |p.items| ==> p.items[i].page == page
  {
    if runs != [] {
      PageAnchorsItsRuns(Front(runs), page);
      var p, run := AnchorRuns(Front(runs), page), Last(runs);
      var words := RunTexts(Front(runs));
      if Trim(run.str) != [] {
        var one := Run(0, |run.str|, page, run.x, run.y, run.width, run.height);
        assert Selects(run.str, one, run.str);
        AnchorsAppend(p.text, p.items, words, "", run.str, [one], [run.str], if run.hasEOL then "\n" else " ");
        assert p.text + "" == p.text;
        assert ShiftAll([one], |p.text|) == [AnchorRuns(runs, page).items[|p.items|]];
      } else {
        AnchorsAppend(p.text, p.items, words, "", "", [], [], if run.hasEOL then "\n" else "");
        assert p.text + "" + "" == p.text && p.text + "" == p.text && ShiftAll([], |p.text|) == [];
        assert words + [] == words && p.items + [] == p.items;
      }
    }
  }

  /** Page spans are not empty, follow one another from 0, and together make up `length` characters. */
  predicate Tiles(pages: seq<PageInfo>, length: nat) {
    && (forall i :: 0 <= i < |pages| ==> TileAt(pages, i))
    && length == if pages == [] then 0 else Last(pages).textEnd
  }

  predicate TileAt(pages: seq<PageInfo>, i: nat)
    requires i < |pages|
  {
    && pages[i].pageNumber == i + 1
    && pages[i].textStart < pages[i].textEnd
    && pages[i].textStart == if i == 0 then 0 else pages[i - 1].textEnd
  }

  /** The item's range lies inside the span of the page it is on. */
  predicate OnItsPage(pages: seq<PageInfo>, item: Run) {
    && 1 <= item.page <= |pages|
    && pages[item.page - 1].hasTextLayer
    && pages[item.page - 1].textStart <= item.start < item.end < pages[item.page - 1].textEnd
  }

  predicate AllOnTheirPages(l: Layer) {
    forall i :: 0 <= i < |l.items| ==> OnItsPage(l.pages, l.items[i])
  }

  /** A page said to have a text layer does have an item. */
  predicate LayersAreReal(l: Layer) {
    forall k :: 0 <= k < |l.pages| && l.pages[k].hasTextLayer ==> HasItemOn(l.items, k + 1)
  }

  predicate Sound(l: Layer, words: seq<string>) {
    && Tiles(l.pages, |l.text|)
    && Anchors(l.text, l.items, words)
    && AllOnTheirPages(l)
    && LayersAreReal(l)
  }

  lemma ItemsStayOnTheirPages(l: Layer, content: PageContent)
    requires AllOnTheirPages(l)
    ensures AllOnTheirPages(AddPage(l, content))
  {
    var number, start := |l.pages| + 1, |l.text|;
    var page := AnchorRuns(content.runs, number);
    var l' := AddPage(l, content);
    PageAnchorsItsRuns(content.runs, number);
    forall i | 0 <= i < |l'.items|
      ensures OnItsPage(l'.pages, l'.items[i])
    {
      if i < |l.items| {
        assert OnItsPage(l.pages, l.items[i]);
        assert l'.items[i] == l.items[i] && l'.pages[l.items[i].page - 1] == l.pages[l.items[i].page - 1];
      } else {
        var k := i - |l.items|;
        assert Selects(page.text, page.items[k], RunTexts(content.runs)[k]);
        assert l'.items[i] == page.items[k].Shift(start);
        assert l'.pages[number - 1].textEnd == start + |page.text| + 1;
      }
    }
  }

  lemma LayersStayReal(l: Layer, content: PageContent)
    requires LayersAreReal(l)
    ensures LayersAreReal(AddPage(l, content))
  {
    var page := AnchorRuns(content.runs, |l.pages| + 1);
    var l' := AddPage(l, content);
    forall k | 0 <= k < |l'.pages| && l'.pages[k].hasTextLayer
      ensures HasItemOn(l'.items, k + 1)
    {
      if k < |l.pages| {
        assert l'.pages[k] == l.pages[k];
        var i :| 0 <= i < |l.items| && l.items[i].page == k + 1;
        assert l'.items[i].page == k + 1;
      } else {
        PageAnchorsItsRuns(content.runs, |l.pages| + 1);
        assert l'.items[|l.items|] == page.items[0].Shift(|l.text|);
      }
    }
  }

  lemma TilesGrow(pages: seq<PageInfo>, info: PageInfo)
    requires Tiles(pages, info.textStart)
    requires info.pageNumber == |pages| + 1 && info.textStart < info.textEnd
    ensures Tiles(pages + [info], info.textEnd)
  {
    var all := pages + [info];
    forall i | 0 <= i < |all|
      ensures TileAt(all, i)
    {
      if i < |pages| {
        assert TileAt(pages, i);
      }
    }
    assert Last(all) == info;
  }

  lemma AddPageAnchors(l: Layer, words: seq<string>, content: PageContent)
    requires Anchors(l.text, l.items, words)
    ensures Anchors(AddPage(l, content).text, AddPage(l, content).items, words + RunTexts(content.runs))
  {
    var page := AnchorRuns(content.runs, |l.pages| + 1);
    PageAnchorsItsRuns(content.runs, |l.pages| + 1);
    AnchorsAppend(l.text, l.items, words, "", page.text, page.items, RunTexts(content.runs), "\n");
    assert l.text + "" == l.text;
  }

  lemma AddPageIsSound(l: Layer, words: seq<string>, content: PageContent)
    requires Sound(l, words)
    ensures Sound(AddPage(l, content), words + RunTexts(content.runs))
  {
    ItemsStayOnTheirPages(l, content);
    LayersStayReal(l, content);
    AddPageAnchors(l, words, content);
    TilesGrow(l.pages, Last(AddPage(l, content).pages));
  }

  lemma {:induction false} PagesAreSound(contents: seq<PageContent>)
    ensures Sound(Pages(contents), AllRunTexts(contents))
  {
    if contents != [] {
      PagesAreSound(Front(contents));
      AddPageIsSound(Pages(Front(contents)), AllRunTexts(Front(contents)), Last(contents));
    }
  }

  /**
   * The layer tiles the document page by page, its items select exactly the runs that carry text, each
   * inside its page, and there is no layer exactly when no run of any page carries text.
   */
  lemma TextLayerIsSound(contents: seq<PageContent>)
    ensures TextLayerOf(contents).None? <==> AllRunTexts(contents) == []
    ensures TextLayerOf(contents).Some? ==> Sound(TextLayerOf(contents).value, AllRunTexts(contents))
  {
    PagesAreSound(contents);
    var l := Pages(contents);
    if AllRunTexts(contents) != [] {
      assert OnItsPage(l.pages, l.items[0]);
    }
  }
}
