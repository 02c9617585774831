/** What the text layer and the folded form write around the words, and where their items are. */
module TextLayout {
  import opened Prelude
  import opened Strings
  import opened PdfItems
  import opened FormFields
  import TextLayer

  /** What a run adds to the text: itself and a separator, or a line break it alone stands for, or nothing. */
  function RunPiece(run: TextLayer.TextRun): string {
    if Trim(run.str) != [] then run.str + (if run.hasEOL then "\n" else " ")
    else if run.hasEOL then "\n"
    else []
  }

  function Pieces(runs: seq<TextLayer.TextRun>): (pieces: seq<string>)
    ensures |pieces| == |runs| && forall i :: 0 <= i < |runs| ==> pieces[i] == RunPiece(runs[i])
  {
    seq(|runs|, i requires 0 <= i < |runs| => RunPiece(runs[i]))
  }

  /** Where a run that carries text is. */
  function RunRect(run: TextLayer.TextRun, page: nat): seq<Rect> {
    if Trim(run.str) != [] then [Rect(page, run.x, run.y, run.width, run.height)] else []
  }

  function RunRects(runs: seq<TextLayer.TextRun>, page: nat): seq<Rect> {
    if runs == [] then [] else RunRects(Front(runs), page) + RunRect(Last(runs), page)
  }

  lemma PiecesSnoc(runs: seq<TextLayer.TextRun>)
    requires runs != []
    ensures Flatten(Pieces(runs)) == Flatten(Pieces(Front(runs))) + RunPiece(Last(runs))
  {
    assert Pieces(runs) == Pieces(Front(runs)) + [RunPiece(Last(runs))];
    FlattenAppend(Pieces(Front(runs)), [RunPiece(Last(runs))]);
    FlattenOne(RunPiece(Last(runs)));
  }

  lemma AddRunText(p: Anchored, run: TextLayer.TextRun, page: nat)
    ensures TextLayer.AddRun(p, run, page).text == p.text + RunPiece(run)
  {
    assert p.text + [] == p.text;
    assert Trim(run.str) != [] ==>
      p.text + run.str + (if run.hasEOL then "\n" else " ") == p.text + (run.str + (if run.hasEOL then "\n" else " "));
  }

  lemma AddRunRect(p: Anchored, run: TextLayer.TextRun, page: nat)
    ensures Rects(TextLayer.AddRun(p, run, page).items) == Rects(p.items) + RunRect(run, page)
  {
    assert Rects(p.items) + [] == Rects(p.items);
    if Trim(run.str) != [] {
      var one := Run(|p.text|, |p.text + run.str|, page, run.x, run.y, run.width, run.height);
      RectsAppend(p.items, [one]);
      assert Rects([one]) == RunRect(run, page);
    }
  }

  /** A page's text is what its runs add, one after another, and each item is where its run is. */
  lemma {:induction false} PageIsItsRuns(runs: seq<TextLayer.TextRun>, page: nat)
    ensures var p := TextLayer.AnchorRuns(runs, page);
      p.text == Flatten(Pieces(runs)) && Rects(p.items) == RunRects(runs, page)
  {
    if runs == [] {
      assert Pieces(runs) == [];
    } else {
      PageIsItsRuns(Front(runs), page);
      PiecesSnoc(runs);
      AddRunText(TextLayer.AnchorRuns(Front(runs), page), Last(runs), page);
      AddRunRect(TextLayer.AnchorRuns(Front(runs), page), Last(runs), page);
    }
  }

  function PageRects(contents: seq<TextLayer.PageContent>): seq<Rect> {
    if contents == [] then [] else PageRects(Front(contents)) + RunRects(Last(contents).runs, |contents|)
  }

  /** The page's entry: its size, the span of its text with the page break, and whether a run carries text. */
  predicate Describes(info: TextLayer.PageInfo, text: string, content: TextLayer.PageContent, number: nat) {
    && info.pageNumber == number && info.widthPt == content.widthPt && info.heightPt == content.heightPt
    && (info.hasTextLayer <==> TextLayer.RunTexts(content.runs) != [])
    && info.textStart <= info.textEnd <= |text|
    && text[info.textStart..info.textEnd] == Flatten(Pieces(content.runs)) + "\n"
  }

  lemma DescriptionStays(info: TextLayer.PageInfo, text: string, more: string, content: TextLayer.PageContent, n: nat)
    requires Describes(info, text, content, n)
    ensures Describes(info, text + more, content, n)
  {
    assert (text + more)[info.textStart..info.textEnd] == text[info.textStart..info.textEnd];
  }

  lemma TailSlice(a: string, b: string)
    ensures (a + b)[|a|..|a + b|] == b
  {}

  lemma NewPageDescribes(l: TextLayer.Layer, content: TextLayer.PageContent)
    ensures var l' := TextLayer.AddPage(l, content);
      Describes(Last(l'.pages), l'.text, content, |l.pages| + 1)
  {
    var page := TextLayer.AnchorRuns(content.runs, |l.pages| + 1);
    PageIsItsRuns(content.runs, |l.pages| + 1);
    TextLayer.PageAnchorsItsRuns(content.runs, |l.pages| + 1);
    AddedPageText(l, content);
    TailSlice(l.text, page.text + "\n");
  }

  lemma AddedPageText(l: TextLayer.Layer, content: TextLayer.PageContent)
    ensures TextLayer.AddPage(l, content).text
         == l.text + (TextLayer.AnchorRuns(content.runs, |l.pages| + 1).text + "\n")
  {
    assert l.text + TextLayer.AnchorRuns(content.runs, |l.pages| + 1).text + "\n"
        == l.text + (TextLayer.AnchorRuns(content.runs, |l.pages| + 1).text + "\n");
  }

  lemma {:induction false} LayerKeepsRects(contents: seq<TextLayer.PageContent>)
    ensures |TextLayer.Pages(contents).pages| == |contents|
    ensures Rects(TextLayer.Pages(contents).items) == PageRects(contents)
  {
    if contents != [] {
      var l, runs := TextLayer.Pages(Front(contents)), Last(contents).runs;
      LayerKeepsRects(Front(contents));
      PageIsItsRuns(runs, |contents|);
      RectsAppend(l.items, ShiftAll(TextLayer.AnchorRuns(runs, |contents|).items, |l.text|));
      RectsShift(TextLayer.AnchorRuns(runs, |contents|).items, |l.text|);
    }
  }

  lemma {:induction false} LayerDescribes(contents: seq<TextLayer.PageContent>, k: nat)
    requires k < |contents| == |TextLayer.Pages(contents).pages|
    ensures Describes(TextLayer.Pages(contents).pages[k], TextLayer.Pages(contents).text, contents[k], k + 1)
  {
    var l, last := TextLayer.Pages(Front(contents)), Last(contents);
    AddedPageText(l, last);
    if k < |contents| - 1 {
      LayerDescribes(Front(contents), k);
      DescriptionStays(l.pages[k], l.text, TextLayer.AnchorRuns(last.runs, |contents|).text + "\n", contents[k], k + 1);
    } else {
      NewPageDescribes(l, last);
    }
  }

  /** The layer keeps each page's size, writes each page's text and a page break, and leaves its items in place. */
  lemma LayerIsItsPages(contents: seq<TextLayer.PageContent>)
    ensures var l := TextLayer.Pages(contents);
      && |l.pages| == |contents|
      && (forall k :: 0 <= k < |contents| ==> Describes(l.pages[k], l.text, contents[k], k + 1))
      && Rects(l.items) == PageRects(contents)
  {
    LayerKeepsRects(contents);
    forall k | 0 <= k < |contents|
      ensures Describes(TextLayer.Pages(contents).pages[k], TextLayer.Pages(contents).text, contents[k], k + 1)
    {
      LayerDescribes(contents, k);
    }
  }

  // ----- Forms -----

  /** The widget's value without surrounding space, on the page after the parser's, over the widget's rectangle. */
  lemma FieldIsItsWidget(e: Entry)
    requires ToFormField(e).Some?
    ensures var f := ToFormField(e).value;
      && e.name == Some(f.name) && e.value.Some? && f.value == Trim(e.value.value) && f.value != []
      && e.page == Some(f.page - 1) && e.page.value >= 0
      && e.rect.Some? && |e.rect.value| >= 4
      && {Some(f.x), Some(f.x + f.width)} == {e.rect.value[0], e.rect.value[2]} && f.width >= 0.0
      && {Some(f.y), Some(f.y + f.height)} == {e.rect.value[1], e.rect.value[3]} && f.height >= 0.0
  {}

  /** Nothing else is refused: a name, a value that is not blank, a page, and a rectangle of numbers. */
  lemma WidgetIsFilledIff(e: Entry)
    ensures ToFormField(e).Some? <==>
      && e.name.Some? && e.value.Some? && Trim(e.value.value) != [] && e.page.Some? && e.page.value >= 0
      && e.rect.Some? && |e.rect.value| >= 4 && None !in e.rect.value
  {
    if e.rect.Some? {
      assert None in e.rect.value <==> exists i :: 0 <= i < |e.rect.value| && e.rect.value[i] == None;
    }
  }

  function FieldLine(f: FormField): string {
    f.name + ": " + f.value + "\n"
  }

  function FieldLines(fields: seq<FormField>): string {
    if fields == [] then [] else FieldLines(Front(fields)) + FieldLine(Last(fields))
  }

  function FieldRects(fields: seq<FormField>): (rects: seq<Rect>)
    ensures |rects| == |fields|
    ensures forall i :: 0 <= i < |fields| ==>
      rects[i] == Rect(fields[i].page, fields[i].x, fields[i].y, fields[i].width, fields[i].height)
  {
    seq(|fields|, i requires 0 <= i < |fields| =>
      Rect(fields[i].page, fields[i].x, fields[i].y, fields[i].width, fields[i].height))
  }

  lemma FoldOne(a: Anchored, f: FormField)
    ensures FoldField(a, f).text == a.text + FieldLine(f)
    ensures Rects(FoldField(a, f).items) == Rects(a.items) + [Rect(f.page, f.x, f.y, f.width, f.height)]
  {
    var lead := a.text + f.name + ": ";
    var one := Run(|lead|, |lead + f.value|, f.page, f.x, f.y, f.width, f.height);
    assert lead + f.value + "\n" == a.text + FieldLine(f);
    RectsAppend(a.items, [one]);
    assert Rects([one]) == [Rect(f.page, f.x, f.y, f.width, f.height)];
  }

  /** Folding appends one `name: value` line and one item over the widget for each field. */
  lemma {:induction false} FoldedFormIs(a: Anchored, fields: seq<FormField>)
    ensures FoldFields(a, fields).text == a.text + FieldLines(fields)
    ensures Rects(FoldFields(a, fields).items) == Rects(a.items) + FieldRects(fields)
  {
    if fields == [] {
      assert a.text + [] == a.text && Rects(a.items) + FieldRects([]) == Rects(a.items);
    } else {
      var f := Last(fields);
      FoldedFormIs(a, Front(fields));
      FoldOne(FoldFields(a, Front(fields)), f);
      assert a.text + FieldLines(Front(fields)) + FieldLine(f) == a.text + FieldLines(fields);
      assert FieldRects(fields) == FieldRects(Front(fields)) + [Rect(f.page, f.x, f.y, f.width, f.height)];
    }
  }
}
