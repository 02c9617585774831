/** Grid pages as markdown rows, other pages verbatim: `shapeTables`, and what the reshaped pages say. */
module PageShaping {
  import opened Prelude
  import opened Strings
  import opened PdfItems
  import opened PdfTables
  import opened TableMarkdown
  import TextLayer
  import TableGeometry
  import TableShift

  // ----- Grid pages as markdown -----

  function OneOnPage(r: Run, page: nat): seq<Run> {
    if r.page == page then [r] else []
  }

  function OnPage(items: seq<Run>, page: nat): seq<Run> {
    if items == [] then [] else OnPage(Front(items), page) + OneOnPage(Last(items), page)
  }

  /** Offsets counted from `from` instead of from 0. */
  function Local(items: seq<Run>, from: nat): (local: seq<Run>)
    requires forall i :: 0 <= i < |items| ==> from <= items[i].start && from <= items[i].end
    ensures |local| == |items|
    ensures forall i :: 0 <= i < |items| ==>
      local[i] == items[i].(start := items[i].start - from, end := items[i].end - from)
  {
    seq(|items|, i requires 0 <= i < |items| => items[i].(start := items[i].start - from, end := items[i].end - from))
  }

  /** The page's items are not before its text, and its text is inside the document's. */
  predicate Spans(layer: TextLayer.Layer, info: TextLayer.PageInfo) {
    && info.textStart <= info.textEnd <= |layer.text|
    && forall i :: 0 <= i < |layer.items| && layer.items[i].page == info.pageNumber ==>
         info.textStart <= layer.items[i].start <= layer.items[i].end <= info.textEnd
  }

  lemma {:induction false} OnPageIsSome(items: seq<Run>, page: nat)
    ensures forall r :: r in OnPage(items, page) <==> r in items && r.page == page
  {
    if items != [] {
      OnPageIsSome(Front(items), page);
      assert items == Front(items) + [Last(items)];
    }
  }

  function ShapePage(a: Anchored, layer: TextLayer.Layer, info: TextLayer.PageInfo): Anchored
    requires Spans(layer, info)
  {
    var table := PageTable(layer, info);
    if table.Some? then
      var rendered := Render(table.value, info.pageNumber, |a.text|);
      Anchored(a.text + rendered.text, a.items + rendered.items)
    else Verbatim(a, layer, info)
  }

  function PageTable(layer: TextLayer.Layer, info: TextLayer.PageInfo): Option<seq<seq<TableCell>>> {
    Table(OnPage(layer.items, info.pageNumber), layer.text)
  }

  function Verbatim(a: Anchored, layer: TextLayer.Layer, info: TextLayer.PageInfo): Anchored
    requires Spans(layer, info)
  {
    OnPageIsSome(layer.items, info.pageNumber);
    Anchored(a.text + layer.text[info.textStart..info.textEnd],
             a.items + ShiftAll(Local(OnPage(layer.items, info.pageNumber), info.textStart), |a.text|))
  }

  function ShapePages(layer: TextLayer.Layer, pages: seq<TextLayer.PageInfo>): Anchored
    requires forall i :: 0 <= i < |pages| ==> Spans(layer, pages[i])
  {
    if pages == [] then Anchored("", []) else ShapePage(ShapePages(layer, Front(pages)), layer, Last(pages))
  }

  predicate HasTable(layer: TextLayer.Layer, info: TextLayer.PageInfo) {
    PageTable(layer, info).Some?
  }

  predicate AllSpan(layer: TextLayer.Layer) {
    forall i :: 0 <= i < |layer.pages| ==> Spans(layer, layer.pages[i])
  }

  function Shaped(layer: TextLayer.Layer): Option<Anchored>
    requires AllSpan(layer)
  {
    if AnyTable(layer) then Some(ShapePages(layer, layer.pages)) else None
  }

  predicate AnyTable(layer: TextLayer.Layer) {
    exists i :: 0 <= i < |layer.pages| && HasTable(layer, layer.pages[i])
  }

  lemma NextPageShaped(layer: TextLayer.Layer, p: nat)
    requires AllSpan(layer) && p < |layer.pages|
    ensures ShapePages(layer, layer.pages[..p + 1])
         == ShapePage(ShapePages(layer, layer.pages[..p]), layer, layer.pages[p])
  {
    assert Front(layer.pages[..p + 1]) == layer.pages[..p];
  }

  method ShapeTables(layer: TextLayer.Layer) returns (shaped: Option<Anchored>)
    requires AllSpan(layer)
    ensures shaped == Shaped(layer)
  {
    var tables, any := PageTables(layer);
    if !any {
      return None;
    }
    var a := Anchored("", []);
    for p := 0 to |layer.pages|
      invariant a == ShapePages(layer, layer.pages[..p])
    {
      NextPageShaped(layer, p);
      a := AppendPage(a, layer, layer.pages[p], tables[p]);
    }
    assert layer.pages[..|layer.pages|] == layer.pages;
    shaped := Some(a);
  }

  method AppendPage(a0: Anchored, layer: TextLayer.Layer, info: TextLayer.PageInfo, table: Option<seq<seq<TableCell>>>)
    returns (a: Anchored)
    requires Spans(layer, info) && table == PageTable(layer, info)
    ensures a == ShapePage(a0, layer, info)
  {
    if table.Some? {
      var markdown, cells := RenderTable(table.value, info.pageNumber, |a0.text|);
      a := Anchored(a0.text + markdown, a0.items + cells);
    } else {
      a := CopyPage(a0, layer, info);
    }
  }

  method PageTables(layer: TextLayer.Layer) returns (tables: seq<Option<seq<seq<TableCell>>>>, any: bool)
    ensures |tables| == |layer.pages|
    ensures forall p :: 0 <= p < |tables| ==> tables[p] == PageTable(layer, layer.pages[p])
    ensures any == AnyTable(layer)
  {
    tables := [];
    for p := 0 to |layer.pages|
      invariant |tables| == p
      invariant forall k :: 0 <= k < p ==> tables[k] == PageTable(layer, layer.pages[k])
    {
      var table := DetectTable(OnPage(layer.items, layer.pages[p].pageNumber), layer.text);
      tables := tables + [table];
    }
    any := exists p :: 0 <= p < |tables| && tables[p].Some?;
    if any {
      var p :| 0 <= p < |tables| && tables[p].Some?;
      assert HasTable(layer, layer.pages[p]);
    }
  }

  /** A page kept verbatim: its slice of the text, and its runs moved by the same distance. */
  method CopyPage(a0: Anchored, layer: TextLayer.Layer, info: TextLayer.PageInfo) returns (a: Anchored)
    requires Spans(layer, info)
    ensures a == Verbatim(a0, layer, info)
  {
    OnPageIsSome(layer.items, info.pageNumber);
    var pageItems, items := OnPage(layer.items, info.pageNumber), a0.items;
    var shift := |a0.text| - info.textStart;
    ghost var moved := ShiftAll(Local(pageItems, info.textStart), |a0.text|);
    for i := 0 to |pageItems|
      invariant items == a0.items + moved[..i]
    {
      var item := pageItems[i];
      assert item in pageItems;
      items := items + [item.(start := item.start + shift, end := item.end + shift)];
    }
    assert moved[..|pageItems|] == moved;
    a := Anchored(a0.text + layer.text[info.textStart..info.textEnd], items);
  }

  // ----- What the reshaped document's items select -----

  /** What the items of a reshaped page select, read off the layer. */
  function LayerWords(layer: TextLayer.Layer, info: TextLayer.PageInfo): seq<string> {
    var items := OnPage(layer.items, info.pageNumber);
    var table := Table(items, layer.text);
    if table.Some? then CellTexts(Flatten(table.value)) else Slices(items, layer.text)
  }

  function AllLayerWords(layer: TextLayer.Layer, pages: seq<TextLayer.PageInfo>): seq<string> {
    if pages == [] then [] else AllLayerWords(layer, Front(pages)) + LayerWords(layer, Last(pages))
  }

  predicate Ordered(items: seq<Run>) {
    forall i, j :: 0 <= i < j < |items| ==> items[i].end <= items[j].start
  }

  lemma {:induction false} OnPageIsOrdered(items: seq<Run>, page: nat)
    requires Ordered(items)
    ensures Ordered(OnPage(items, page))
  {
    if items != [] {
      OnPageIsOrdered(Front(items), page);
      var kept := OnPage(Front(items), page);
      OnPageIsSome(Front(items), page);
      forall i | 0 <= i < |kept|
        ensures kept[i].end <= Last(items).start
      {
        assert kept[i] in kept;
      }
    }
  }

  lemma OnPageInside(layer: TextLayer.Layer, words: seq<string>, info: TextLayer.PageInfo, i: nat)
    requires Spans(layer, info) && Anchors(layer.text, layer.items, words)
    requires i < |OnPage(layer.items, info.pageNumber)|
    ensures var run := OnPage(layer.items, info.pageNumber)[i]; info.textStart <= run.start < run.end <= info.textEnd
  {
    OnPageIsSome(layer.items, info.pageNumber);
    var run := OnPage(layer.items, info.pageNumber)[i];
    assert run in OnPage(layer.items, info.pageNumber);
    assert run in layer.items && run.page == info.pageNumber;
    var k :| 0 <= k < |layer.items| && layer.items[k] == run;
    AnchorAt(layer.text, layer.items, words, k);
  }

  lemma CutSelects(text: string, start: nat, end: nat, run: Run)
    requires start <= run.start < run.end <= end <= |text|
    ensures Selects(text[start..end], run.(start := run.start - start, end := run.end - start),
                    Slice(text, run.start, run.end))
  {
    SliceOfSlice(text, start, end, run.start - start, run.end - start);
    assert start + (run.start - start) == run.start && start + (run.end - start) == run.end;
  }

  lemma SliceOfSlice(text: string, i: nat, j: nat, a: nat, b: nat)
    requires i <= j <= |text| && a <= b <= j - i
    ensures text[i..j][a..b] == text[i + a..i + b]
  {
    forall k | 0 <= k < b - a
      ensures text[i..j][a..b][k] == text[i + a..i + b][k]
    {
      assert text[i..j][a + k] == text[i + a + k];
    }
  }

  lemma LocalAnchors(layer: TextLayer.Layer, words: seq<string>, info: TextLayer.PageInfo)
    requires Spans(layer, info) && Anchors(layer.text, layer.items, words)
    ensures var items := OnPage(layer.items, info.pageNumber);
      && (forall i :: 0 <= i < |items| ==> info.textStart <= items[i].start && info.textStart <= items[i].end)
      && Anchors(layer.text[info.textStart..info.textEnd], Local(items, info.textStart), Slices(items, layer.text))
  {
    var items := OnPage(layer.items, info.pageNumber);
    OnPageIsOrdered(layer.items, info.pageNumber);
    forall i | 0 <= i < |items|
      ensures info.textStart <= items[i].start < items[i].end <= info.textEnd
    {
      OnPageInside(layer, words, info, i);
    }
    var local, slices := Local(items, info.textStart), Slices(items, layer.text);
    forall i | 0 <= i < |items|
      ensures Selects(layer.text[info.textStart..info.textEnd], local[i], slices[i])
    {
      CutSelects(layer.text, info.textStart, info.textEnd, items[i]);
    }
  }

  lemma TableCellsAreFilled(items: seq<Run>, text: string)
    requires Table(items, text).Some?
    ensures forall row, c :: row in Table(items, text).value && c in row ==> c.text != []
  {
    var rows := Table(items, text).value;
    forall row, c | row in rows && c in row
      ensures c.text != []
    {
      var i :| 0 <= i < |rows| && rows[i] == row;
      var j :| 0 <= j < |row| && row[j] == c;
      assert rows[i][j].text != [];
    }
  }

  lemma ShapePageIsExact(a: Anchored, before: seq<string>, layer: TextLayer.Layer, words: seq<string>,
                         info: TextLayer.PageInfo)
    requires Exact(a, before) && Spans(layer, info) && Anchors(layer.text, layer.items, words)
    ensures Exact(ShapePage(a, layer, info), before + LayerWords(layer, info))
  {
    var items := OnPage(layer.items, info.pageNumber);
    var table := Table(items, layer.text);
    if table.Some? {
      TableCellsAreFilled(items, layer.text);
      TableIsExact(a, before, table.value, info.pageNumber);
    } else {
      LocalAnchors(layer, words, info);
      var text := layer.text[info.textStart..info.textEnd];
      AnchorsAppend(a.text, a.items, before, "", text, Local(items, info.textStart), Slices(items, layer.text), "");
      assert a.text + "" == a.text && a.text + "" + text + "" == a.text + text;
    }
  }

  lemma TableIsExact(a: Anchored, before: seq<string>, rows: seq<seq<TableCell>>, page: nat)
    requires Exact(a, before) && forall row, c :: row in rows && c in row ==> c.text != []
    ensures var r := Render(rows, page, |a.text|);
      Exact(Anchored(a.text + r.text, a.items + r.items), before + CellTexts(Flatten(rows)))
  {
    var r, local := Render(rows, page, |a.text|), Render(rows, page, 0);
    var cells := CellTexts(Flatten(rows));
    RenderedCellsAreAnchored("", rows, page);
    RenderShifts(rows, page, |a.text|);
    assert "" + local.text == local.text;
    AnchorsAppend(a.text, a.items, before, "", local.text, local.items, cells, "");
    assert a.text + "" == a.text && a.text + "" + local.text + "" == a.text + local.text;
  }

  /** Where the table lands only shifts its items. */
  lemma {:induction false} RenderShifts(rows: seq<seq<TableCell>>, page: nat, offset: nat)
    ensures Render(rows, page, offset).text == Render(rows, page, 0).text
    ensures Render(rows, page, offset).items == ShiftAll(Render(rows, page, 0).items, offset)
  {
    if rows != [] {
      RenderShifts(Front(rows), page, offset);
      var r, r0 := Render(Front(rows), page, offset), Render(Front(rows), page, 0);
      CellsShift(r.(text := r.text + "|"), r0.(text := r0.text + "|"), Last(rows), page, offset);
    }
  }

  lemma {:induction false} CellsShift(r: Anchored, r0: Anchored, row: seq<TableCell>, page: nat, offset: nat)
    requires r.text == r0.text && r.items == ShiftAll(r0.items, offset)
    ensures PutCells(r, row, page, offset).text == PutCells(r0, row, page, 0).text
    ensures PutCells(r, row, page, offset).items == ShiftAll(PutCells(r0, row, page, 0).items, offset)
  {
    if row != [] {
      CellsShift(r, r0, Front(row), page, offset);
    }
  }

  lemma {:induction false} ShapedIsExact(layer: TextLayer.Layer, words: seq<string>, pages: seq<TextLayer.PageInfo>)
    requires Anchors(layer.text, layer.items, words)
    requires forall i :: 0 <= i < |pages| ==> Spans(layer, pages[i])
    ensures Exact(ShapePages(layer, pages), AllLayerWords(layer, pages))
  {
    if pages != [] {
      ShapedIsExact(layer, words, Front(pages));
      ShapePageIsExact(ShapePages(layer, Front(pages)), AllLayerWords(layer, Front(pages)), layer, words, Last(pages));
    }
  }

  lemma {:induction false} TilesAreInside(pages: seq<TextLayer.PageInfo>, length: nat, i: nat)
    requires TextLayer.Tiles(pages, length) && i < |pages|
    ensures pages[i].textEnd <= length
    decreases |pages| - i
  {
    if i + 1 < |pages| {
      TilesAreInside(pages, length, i + 1);
      assert TextLayer.TileAt(pages, i + 1);
    }
  }

  /** The layer the reader returns has every page's items inside the page's text. */
  lemma SoundLayersSpan(layer: TextLayer.Layer, words: seq<string>)
    requires TextLayer.Sound(layer, words)
    ensures AllSpan(layer)
  {
    forall i | 0 <= i < |layer.pages|
      ensures Spans(layer, layer.pages[i])
    {
      assert TextLayer.TileAt(layer.pages, i);
      TilesAreInside(layer.pages, |layer.text|, i);
      forall k | 0 <= k < |layer.items| && layer.items[k].page == layer.pages[i].pageNumber
        ensures layer.pages[i].textStart <= layer.items[k].start <= layer.items[k].end <= layer.pages[i].textEnd
      {
        assert TextLayer.OnItsPage(layer.pages, layer.items[k]);
      }
    }
  }

  // ----- What the pages say -----

  /** A page on its own: what the cells of its grid should say if it holds one, otherwise what its runs say. */
  function ShapedPageWords(content: TextLayer.PageContent, page: nat): seq<string> {
    TextLayer.PageAnchorsItsRuns(content.runs, page);
    var p, words := TextLayer.AnchorRuns(content.runs, page), TextLayer.RunTexts(content.runs);
    if Table(p.items, p.text).Some? then TableShift.GridWords(p.items, words, TableGeometry.Grid(p.items)) else words
  }

  function ShapedWords(contents: seq<TextLayer.PageContent>): seq<string> {
    if contents == [] then [] else ShapedWords(Front(contents)) + ShapedPageWords(Last(contents), |contents|)
  }

  lemma {:induction false} OnPageAppend(a: seq<Run>, b: seq<Run>, page: nat)
    ensures OnPage(a + b, page) == OnPage(a, page) + OnPage(b, page)
  {
    if b == [] {
      assert a + b == a;
    } else {
      assert Front(a + b) == a + Front(b) && Last(a + b) == Last(b);
      OnPageAppend(a, Front(b), page);
      assert OnPage(a + b, page) == (OnPage(a, page) + OnPage(Front(b), page)) + OneOnPage(Last(b), page);
      assert OnPage(b, page) == OnPage(Front(b), page) + OneOnPage(Last(b), page);
    }
  }

  lemma {:induction false} AllOnPage(items: seq<Run>, page: nat)
    requires forall i :: 0 <= i < |items| ==> items[i].page == page
    ensures OnPage(items, page) == items
  {
    if items != [] {
      AllOnPage(Front(items), page);
      assert Front(items) + [Last(items)] == items;
    }
  }

  lemma {:induction false} NoneOnPage(items: seq<Run>, page: nat)
    requires forall i :: 0 <= i < |items| ==> items[i].page != page
    ensures OnPage(items, page) == []
  {
    if items != [] {
      NoneOnPage(Front(items), page);
    }
  }

  /** Where the text of page `k`, counted from 0, begins. */
  function PageStart(contents: seq<TextLayer.PageContent>, k: nat): nat
    requires k <= |contents|
  {
    |TextLayer.Pages(contents[..k]).text|
  }

  lemma EarlierStart(contents: seq<TextLayer.PageContent>, k: nat)
    requires contents != [] && k < |contents|
    ensures k < |contents| - 1 ==> PageStart(Front(contents), k) == PageStart(contents, k)
    ensures k == |contents| - 1 ==> PageStart(contents, k) == |TextLayer.Pages(Front(contents)).text|
  {
    assert k < |contents| - 1 ==> Front(contents)[..k] == contents[..k];
    assert k == |contents| - 1 ==> Front(contents) == contents[..k];
  }

  lemma PrefixSlice(a: string, b: string, i: nat, j: nat)
    requires i <= j <= |a|
    ensures (a + b)[i..j] == a[i..j]
  {}

  lemma MiddleSlice(a: string, b: string, c: string)
    ensures (a + b + c)[|a|..|a| + |b|] == b
  {}

  lemma TextOfPages(contents: seq<TextLayer.PageContent>)
    requires contents != []
    ensures TextLayer.Pages(contents).text
         == TextLayer.Pages(Front(contents)).text + TextLayer.AnchorRuns(Last(contents).runs, |contents|).text + "\n"
  {
    var l := TextLayer.Pages(Front(contents));
    PageCount(Front(contents));
    AddedText(l, Last(contents));
    assert TextLayer.Pages(contents) == TextLayer.AddPage(l, Last(contents));
  }

  lemma AddedText(l: TextLayer.Layer, content: TextLayer.PageContent)
    ensures TextLayer.AddPage(l, content).text
         == l.text + TextLayer.AnchorRuns(content.runs, |l.pages| + 1).text + "\n"
  {}

  lemma ItemsOfPages(contents: seq<TextLayer.PageContent>)
    requires contents != []
    ensures TextLayer.Pages(contents).items
         == TextLayer.Pages(Front(contents)).items
          + ShiftAll(TextLayer.AnchorRuns(Last(contents).runs, |contents|).items,
                     |TextLayer.Pages(Front(contents)).text|)
  {
    PageCount(Front(contents));
  }

  lemma {:induction false} PageTextAt(contents: seq<TextLayer.PageContent>, k: nat)
    requires k < |contents|
    ensures Stands(TextLayer.AnchorRuns(contents[k].runs, k + 1).text, TextLayer.Pages(contents).text,
                   PageStart(contents, k))
  {
    var before := TextLayer.Pages(Front(contents)).text;
    var last := TextLayer.AnchorRuns(Last(contents).runs, |contents|).text;
    EarlierStart(contents, k);
    TextOfPages(contents);
    if k < |contents| - 1 {
      var page := TextLayer.AnchorRuns(contents[k].runs, k + 1).text;
      PageTextAt(Front(contents), k);
      PrefixSlice(before, last + "\n", PageStart(contents, k), PageStart(contents, k) + |page|);
      assert before + last + "\n" == before + (last + "\n");
    } else {
      MiddleSlice(before, last, "\n");
    }
  }

  lemma EarlierPagesOnly(contents: seq<TextLayer.PageContent>, i: nat)
    requires i < |TextLayer.Pages(contents).items|
    ensures TextLayer.Pages(contents).items[i].page <= |contents|
  {
    TextLayer.PagesAreSound(contents);
    PageCount(contents);
    assert TextLayer.OnItsPage(TextLayer.Pages(contents).pages, TextLayer.Pages(contents).items[i]);
  }

  lemma AddedOnPage(runs: seq<TextLayer.TextRun>, number: nat, d: nat, page: nat)
    ensures var added := ShiftAll(TextLayer.AnchorRuns(runs, number).items, d);
      OnPage(added, page) == if page == number then added else []
  {
    var added := ShiftAll(TextLayer.AnchorRuns(runs, number).items, d);
    TextLayer.PageAnchorsItsRuns(runs, number);
    if page == number {
      AllOnPage(added, page);
    } else {
      NoneOnPage(added, page);
    }
  }

  lemma {:induction false} PageItemsAt(contents: seq<TextLayer.PageContent>, k: nat)
    requires k < |contents|
    ensures OnPage(TextLayer.Pages(contents).items, k + 1)
         == ShiftAll(TextLayer.AnchorRuns(contents[k].runs, k + 1).items, PageStart(contents, k))
  {
    var n, before := |contents|, TextLayer.Pages(Front(contents));
    EarlierStart(contents, k);
    ItemsOfPages(contents);
    OnPageAppend(before.items, ShiftAll(TextLayer.AnchorRuns(Last(contents).runs, n).items, |before.text|), k + 1);
    AddedOnPage(Last(contents).runs, n, |before.text|, k + 1);
    if k < n - 1 {
      PageItemsAt(Front(contents), k);
    } else {
      forall i | 0 <= i < |before.items|
        ensures before.items[i].page != k + 1
      {
        EarlierPagesOnly(Front(contents), i);
      }
      NoneOnPage(before.items, k + 1);
    }
  }

  lemma {:induction false} PageCount(contents: seq<TextLayer.PageContent>)
    ensures |TextLayer.Pages(contents).pages| == |contents|
  {
    if contents != [] {
      PageCount(Front(contents));
    }
  }

  /** The text stands in the whole at this position. */
  predicate Stands(text: string, whole: string, start: nat) {
    start + |text| <= |whole| && whole[start..start + |text|] == text
  }

  lemma RunSaysTheSame(whole: string, start: nat, text: string, r: Run)
    requires Stands(text, whole, start) && r.start < r.end <= |text|
    ensures Slice(whole, r.start + start, r.end + start) == Slice(text, r.start, r.end)
  {
    SliceOfSlice(whole, start, start + |text|, r.start, r.end);
    assert start + r.start == r.start + start && start + r.end == r.end + start;
  }

  lemma ItemsSayTheSame(a: Anchored, words: seq<string>, whole: string, start: nat)
    requires Exact(a, words) && Stands(a.text, whole, start)
    ensures TableShift.SameText(a.items, a.text, whole, start)
  {
    forall r | r in a.items
      ensures Slice(whole, r.start + start, r.end + start) == Slice(a.text, r.start, r.end)
    {
      var i :| 0 <= i < |a.items| && a.items[i] == r;
      AnchorAt(a.text, a.items, words, i);
      RunSaysTheSame(whole, start, a.text, r);
    }
  }

  lemma PageSaysTheSame(contents: seq<TextLayer.PageContent>, k: nat)
    requires k < |contents|
    ensures var p := TextLayer.AnchorRuns(contents[k].runs, k + 1);
      TableShift.SameText(p.items, p.text, TextLayer.Pages(contents).text, PageStart(contents, k))
  {
    var runs, start, whole := contents[k].runs, PageStart(contents, k), TextLayer.Pages(contents).text;
    var p := TextLayer.AnchorRuns(runs, k + 1);
    PageTextAt(contents, k);
    TextLayer.PageAnchorsItsRuns(runs, k + 1);
    ItemsSayTheSame(p, TextLayer.RunTexts(runs), whole, start);
  }

  lemma ShiftedSlice(items: seq<Run>, text: string, whole: string, d: nat, words: seq<string>, i: nat)
    requires TableShift.SameText(items, text, whole, d) && Anchors(text, items, words) && i < |items|
    ensures Slice(whole, items[i].start + d, items[i].end + d) == words[i]
  {
    assert items[i] in items;
    AnchorAt(text, items, words, i);
  }

  lemma ShiftedSlices(items: seq<Run>, text: string, whole: string, d: nat, words: seq<string>)
    requires TableShift.SameText(items, text, whole, d) && Anchors(text, items, words)
    ensures Slices(ShiftAll(items, d), whole) == words
  {
    forall i | 0 <= i < |items|
      ensures Slice(whole, items[i].start + d, items[i].end + d) == words[i]
    {
      ShiftedSlice(items, text, whole, d, words, i);
    }
  }

  /** In the whole text, the items of page `k` say what its runs say. */
  lemma PageSaysItsRuns(contents: seq<TextLayer.PageContent>, k: nat)
    requires k < |contents|
    ensures Slices(OnPage(TextLayer.Pages(contents).items, k + 1), TextLayer.Pages(contents).text)
         == TextLayer.RunTexts(contents[k].runs)
  {
    var p, words := TextLayer.AnchorRuns(contents[k].runs, k + 1), TextLayer.RunTexts(contents[k].runs);
    TextLayer.PageAnchorsItsRuns(contents[k].runs, k + 1);
    PageItemsAt(contents, k);
    PageSaysTheSame(contents, k);
    ShiftedSlices(p.items, p.text, TextLayer.Pages(contents).text, PageStart(contents, k), words);
  }

  lemma PageNumberAt(contents: seq<TextLayer.PageContent>, k: nat)
    requires k < |contents|
    ensures k < |TextLayer.Pages(contents).pages| && TextLayer.Pages(contents).pages[k].pageNumber == k + 1
  {
    PageCount(contents);
    TextLayer.PagesAreSound(contents);
    assert TextLayer.TileAt(TextLayer.Pages(contents).pages, k);
  }

  /** In the document, page `k` holds the grid it holds on its own. */
  lemma PageHoldsItsGrid(contents: seq<TextLayer.PageContent>, k: nat)
    requires k < |contents| && k < |TextLayer.Pages(contents).pages|
    ensures var layer, p := TextLayer.Pages(contents), TextLayer.AnchorRuns(contents[k].runs, k + 1);
      PageTable(layer, layer.pages[k]) == Table(p.items, p.text)
  {
    var p := TextLayer.AnchorRuns(contents[k].runs, k + 1);
    PageNumberAt(contents, k);
    PageItemsAt(contents, k);
    PageSaysTheSame(contents, k);
    TableShift.DetectionIsLocal(p.items, p.text, TextLayer.Pages(contents).text, PageStart(contents, k));
  }

  /** And it says what it says on its own. */
  lemma PageSaysItsWords(contents: seq<TextLayer.PageContent>, k: nat)
    requires k < |contents| && k < |TextLayer.Pages(contents).pages|
    ensures LayerWords(TextLayer.Pages(contents), TextLayer.Pages(contents).pages[k])
         == ShapedPageWords(contents[k], k + 1)
  {
    var p, words := TextLayer.AnchorRuns(contents[k].runs, k + 1), TextLayer.RunTexts(contents[k].runs);
    PageHoldsItsGrid(contents, k);
    TextLayer.PageAnchorsItsRuns(contents[k].runs, k + 1);
    if Table(p.items, p.text).Some? {
      TableShift.TableSays(p.text, p.items, words);
    } else {
      PageNumberAt(contents, k);
      PageSaysItsRuns(contents, k);
    }
  }

  lemma NextPageSays(layer: TextLayer.Layer, pages: seq<TextLayer.PageInfo>, n: nat)
    requires 0 < n <= |pages|
    ensures AllLayerWords(layer, pages[..n]) == AllLayerWords(layer, pages[..n - 1]) + LayerWords(layer, pages[n - 1])
  {
    assert Front(pages[..n]) == pages[..n - 1];
  }

  lemma NextPageWords(contents: seq<TextLayer.PageContent>, n: nat)
    requires 0 < n <= |contents|
    ensures ShapedWords(contents[..n]) == ShapedWords(contents[..n - 1]) + ShapedPageWords(contents[n - 1], n)
  {
    assert Front(contents[..n]) == contents[..n - 1];
  }

  lemma {:induction false} FirstPagesSay(contents: seq<TextLayer.PageContent>, n: nat)
    requires n <= |contents| == |TextLayer.Pages(contents).pages|
    ensures AllLayerWords(TextLayer.Pages(contents), TextLayer.Pages(contents).pages[..n]) == ShapedWords(contents[..n])
  {
    if n > 0 {
      FirstPagesSay(contents, n - 1);
      PageSaysItsWords(contents, n - 1);
      NextPageSays(TextLayer.Pages(contents), TextLayer.Pages(contents).pages, n);
      NextPageWords(contents, n);
    }
  }

  lemma LayerSaysThePages(contents: seq<TextLayer.PageContent>)
    ensures AllLayerWords(TextLayer.Pages(contents), TextLayer.Pages(contents).pages) == ShapedWords(contents)
  {
    var pages := TextLayer.Pages(contents).pages;
    PageCount(contents);
    FirstPagesSay(contents, |contents|);
    assert pages[..|contents|] == pages && contents[..|contents|] == contents;
  }

  lemma PageWithoutGrid(contents: seq<TextLayer.PageContent>, k: nat)
    requires k < |contents| && !AnyTable(TextLayer.Pages(contents))
    ensures ShapedPageWords(contents[k], k + 1) == TextLayer.RunTexts(contents[k].runs)
  {
    var layer := TextLayer.Pages(contents);
    PageCount(contents);
    PageHoldsItsGrid(contents, k);
    assert !HasTable(layer, layer.pages[k]);
  }

  lemma NextPageRuns(contents: seq<TextLayer.PageContent>, n: nat)
    requires 0 < n <= |contents|
    ensures TextLayer.AllRunTexts(contents[..n])
         == TextLayer.AllRunTexts(contents[..n - 1]) + TextLayer.RunTexts(contents[n - 1].runs)
  {
    assert Front(contents[..n]) == contents[..n - 1];
  }

  lemma {:induction false} WithoutGridsNothingChanges(contents: seq<TextLayer.PageContent>, n: nat)
    requires n <= |contents| && !AnyTable(TextLayer.Pages(contents))
    ensures ShapedWords(contents[..n]) == TextLayer.AllRunTexts(contents[..n])
  {
    if n > 0 {
      WithoutGridsNothingChanges(contents, n - 1);
      PageWithoutGrid(contents, n - 1);
      NextPageWords(contents, n);
      NextPageRuns(contents, n);
    }
  }
}
