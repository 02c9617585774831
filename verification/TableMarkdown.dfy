/** Writing a grid as markdown rows with anchors, and reading it back: `renderTable`. */
module TableMarkdown {
  import opened Prelude
  import opened Strings
  import opened PdfItems
  import opened PdfTables

  function PutCell(r: Anchored, cell: TableCell, page: nat, offset: nat): Anchored {
    var text := r.text + " ";
    Anchored(text + cell.text + " |",
             r.items + [Run(offset + |text|, offset + |text + cell.text|, page,
                            cell.x, cell.y, cell.width, cell.height)])
  }

  function PutCells(r: Anchored, row: seq<TableCell>, page: nat, offset: nat): Anchored {
    if row == [] then r else PutCell(PutCells(r, Front(row), page, offset), Last(row), page, offset)
  }

  function DelimiterLine(columns: nat): string {
    "|" + Repeat(" --- |", columns)
  }

  function PutRow(r: Anchored, row: seq<TableCell>, rowIndex: nat, page: nat, offset: nat): Anchored {
    var r' := PutCells(r.(text := r.text + "|"), row, page, offset);
    r'.(text := r'.text + "\n" + if rowIndex == 0 then DelimiterLine(|row|) + "\n" else "")
  }

  function Render(rows: seq<seq<TableCell>>, page: nat, offset: nat): Anchored {
    if rows == [] then Anchored("", [])
    else PutRow(Render(Front(rows), page, offset), Last(rows), |rows| - 1, page, offset)
  }

  method RenderTable(rows: seq<seq<TableCell>>, page: nat, offset: nat) returns (text: string, items: seq<Run>)
    ensures Anchored(text, items) == Render(rows, page, offset)
  {
    text, items := "", [];
    for rowIndex := 0 to |rows|
      invariant Anchored(text, items) == Render(rows[..rowIndex], page, offset)
    {
      var row := rows[rowIndex];
      text, items := RenderCells(text + "|", items, row, page, offset);
      text := text + "\n";
      if rowIndex == 0 {
        text := text + (DelimiterLine(|row|) + "\n");
      }
      assert Front(rows[..rowIndex + 1]) == rows[..rowIndex];
      assert rowIndex > 0 ==> text + "" == text;
    }
    assert rows[..|rows|] == rows;
  }

  method RenderCells(text0: string, items0: seq<Run>, row: seq<TableCell>, page: nat, offset: nat)
    returns (text: string, items: seq<Run>)
    ensures Anchored(text, items) == PutCells(Anchored(text0, items0), row, page, offset)
  {
    text, items := text0, items0;
    for c := 0 to |row|
      invariant Anchored(text, items) == PutCells(Anchored(text0, items0), row[..c], page, offset)
    {
      var cell := row[c];
      text := text + " ";
      var start := offset + |text|;
      text := text + cell.text;
      items := items + [Run(start, offset + |text|, page, cell.x, cell.y, cell.width, cell.height)];
      text := text + " |";
      assert Front(row[..c + 1]) == row[..c];
    }
    assert row[..|row|] == row;
  }

  // ----- Anchors -----

  function CellTexts(row: seq<TableCell>): (texts: seq<string>)
    ensures |texts| == |row| && forall i :: 0 <= i < |row| ==> texts[i] == row[i].text
  {
    seq(|row|, i requires 0 <= i < |row| => row[i].text)
  }

  function GridTexts(rows: seq<seq<TableCell>>): (texts: seq<seq<string>>)
    ensures |texts| == |rows| && forall i :: 0 <= i < |rows| ==> texts[i] == CellTexts(rows[i])
  {
    seq(|rows|, i requires 0 <= i < |rows| => CellTexts(rows[i]))
  }

  /** A run carries a cell's geometry. */
  predicate Carries(run: Run, cell: TableCell, page: nat) {
    run.page == page && run.x == cell.x && run.y == cell.y && run.width == cell.width && run.height == cell.height
  }

  /** One item per cell written so far, each selecting its cell's text in the document that starts with `before`. */
  predicate CellsAnchored(before: string, r: Anchored, cells: seq<TableCell>, page: nat) {
    && Anchors(before + r.text, r.items, CellTexts(cells))
    && forall i :: 0 <= i < |cells| ==> Carries(r.items[i], cells[i], page)
  }

  lemma TextGrows(before: string, r: Anchored, cells: seq<TableCell>, page: nat, more: string)
    requires CellsAnchored(before, r, cells, page)
    ensures CellsAnchored(before, r.(text := r.text + more), cells, page)
  {
    AnchorsAppend(before + r.text, r.items, CellTexts(cells), more, "", [], [], "");
    assert before + r.text + more + "" + "" == before + (r.text + more);
    assert r.items + ShiftAll([], |before + r.text + more|) == r.items;
    assert CellTexts(cells) + [] == CellTexts(cells);
  }

  lemma PutCellIsAnchored(before: string, r: Anchored, cells: seq<TableCell>, cell: TableCell, page: nat)
    requires CellsAnchored(before, r, cells, page) && cell.text != []
    ensures CellsAnchored(before, PutCell(r, cell, page, |before|), cells + [cell], page)
  {
    var one := Run(0, |cell.text|, page, cell.x, cell.y, cell.width, cell.height);
    var r' := PutCell(r, cell, page, |before|);
    assert Selects(cell.text, one, cell.text);
    AnchorsAppend(before + r.text, r.items, CellTexts(cells), " ", cell.text, [one], [cell.text], " |");
    assert before + r.text + " " + cell.text + " |" == before + r'.text;
    assert r.items + ShiftAll([one], |before + r.text + " "|) == r'.items;
    assert CellTexts(cells) + [cell.text] == CellTexts(cells + [cell]);
  }

  lemma {:induction false} PutCellsIsAnchored(before: string, r: Anchored, cells: seq<TableCell>,
                                              row: seq<TableCell>, page: nat)
    requires CellsAnchored(before, r, cells, page) && forall c :: c in row ==> c.text != []
    ensures CellsAnchored(before, PutCells(r, row, page, |before|), cells + row, page)
  {
    if row == [] {
      assert cells + row == cells;
    } else {
      PutCellsIsAnchored(before, r, cells, Front(row), page);
      PutCellIsAnchored(before, PutCells(r, Front(row), page, |before|), cells + Front(row), Last(row), page);
      assert cells + Front(row) + [Last(row)] == cells + row;
    }
  }

  /** Items come one per cell, in row-major order and disjoint, and select exactly the cells' texts. */
  lemma {:induction false} RenderedCellsAreAnchored(before: string, rows: seq<seq<TableCell>>, page: nat)
    requires forall row, c :: row in rows && c in row ==> c.text != []
    ensures CellsAnchored(before, Render(rows, page, |before|), Flatten(rows), page)
  {
    if rows != [] {
      var row, r := Last(rows), Render(Front(rows), page, |before|);
      var cells := Flatten(Front(rows));
      assert row in rows;
      RenderedCellsAreAnchored(before, Front(rows), page);
      TextGrows(before, r, cells, page, "|");
      PutCellsIsAnchored(before, r.(text := r.text + "|"), cells, row, page);
      var r' := PutCells(r.(text := r.text + "|"), row, page, |before|);
      var more := "\n" + if |rows| == 1 then DelimiterLine(|row|) + "\n" else "";
      TextGrows(before, r', cells + row, page, more);
      assert r'.text + "\n" + (if |rows| == 1 then DelimiterLine(|row|) + "\n" else "") == r'.text + more;
      FlattenAppend(Front(rows), [row]);
      FlattenOne(row);
      assert Front(rows) + [row] == rows;
    }
  }

  // ----- Reading the rows back -----

  /** A table row: content between its outer pipes, split at the inner ones, trimmed. */
  function ParseRow(line: string): Option<seq<string>> {
    var pieces := Split(line, '|');
    if |pieces| >= 2 && pieces[0] == [] && Last(pieces) == [] then Some(TrimAll(pieces[1..|pieces| - 1])) else None
  }

  function TrimAll(pieces: seq<string>): (cells: seq<string>)
    ensures |cells| == |pieces| && forall i :: 0 <= i < |pieces| ==> cells[i] == Trim(pieces[i])
  {
    seq(|pieces|, i requires 0 <= i < |pieces| => Trim(pieces[i]))
  }

  function ParseRows(lines: seq<string>): Option<seq<seq<string>>> {
    if lines == [] then Some([])
    else
      var rows :- ParseRows(Front(lines));
      var row :- ParseRow(Last(lines));
      Some(rows + [row])
  }

  /** A header row, a delimiter row of the same width, then the body. */
  function ParseTable(text: string): Option<seq<seq<string>>> {
    var lines := Front(Split(text, '\n'));
    if lines == [] then Some([])
    else
      var header :- ParseRow(lines[0]);
      if |lines| >= 2 && lines[1] == DelimiterLine(|header|) then ParseRows(BodyLines(lines)) else None
  }

  predicate CleanCell(text: string) {
    Trim(text) == text && '|' !in text && '\n' !in text
  }

  predicate CleanCells(texts: seq<seq<string>>) {
    forall row, t :: row in texts && t in row ==> CleanCell(t)
  }

  function RowLine(row: seq<TableCell>): string {
    if row == [] then "|" else RowLine(Front(row)) + " " + Last(row).text + " |"
  }

  function Lines(rows: seq<seq<TableCell>>): seq<string> {
    if rows == [] then []
    else Lines(Front(rows)) + [RowLine(Last(rows))] + if |rows| == 1 then [DelimiterLine(|rows[0]|)] else []
  }

  lemma {:induction false} PutCellsText(r: Anchored, row: seq<TableCell>, page: nat, offset: nat)
    ensures PutCells(r.(text := r.text + "|"), row, page, offset).text == r.text + RowLine(row)
  {
    if row != [] {
      PutCellsText(r, Front(row), page, offset);
      assert r.text + RowLine(Front(row)) + " " + Last(row).text + " |" == r.text + RowLine(row);
    }
  }

  lemma CleanSplit(row: seq<TableCell>)
    requires row != [] && forall t :: t in CellTexts(row) ==> CleanCell(t)
    ensures CellTexts(row) == CellTexts(Front(row)) + [Last(row).text]
    ensures CleanCell(Last(row).text) && forall t :: t in CellTexts(Front(row)) ==> CleanCell(t)
  {
    assert CellTexts(row) == CellTexts(Front(row)) + [Last(row).text];
    assert Last(row).text in CellTexts(row);
    assert forall t :: t in CellTexts(Front(row)) ==> t in CellTexts(row);
  }

  lemma {:induction false} NoLineBreak(row: seq<TableCell>)
    requires forall t :: t in CellTexts(row) ==> CleanCell(t)
    ensures '\n' !in RowLine(row)
  {
    if row != [] {
      CleanSplit(row);
      NoLineBreak(Front(row));
    }
  }

  lemma {:induction false} DelimiterHasNoLineBreak(n: nat)
    ensures '\n' !in Repeat(" --- |", n)
  {
    if n > 0 {
      DelimiterHasNoLineBreak(n - 1);
    }
  }

  lemma {:induction false} RenderedLines(rows: seq<seq<TableCell>>, page: nat, offset: nat)
    requires CleanCells(GridTexts(rows))
    ensures var text := Render(rows, page, offset).text;
      Closed(text, '\n') && Front(Split(text, '\n')) == Lines(rows)
  {
    if rows != [] {
      var row, r := Last(rows), Render(Front(rows), page, offset);
      assert GridTexts(rows) == GridTexts(Front(rows)) + [CellTexts(row)];
      assert CellTexts(row) in GridTexts(rows);
      assert forall t :: t in GridTexts(Front(rows)) ==> t in GridTexts(rows);
      RenderedLines(Front(rows), page, offset);
      PutCellsText(r, row, page, offset);
      NoLineBreak(row);
      AppendPiece(r.text, '\n', RowLine(row));
      if |rows| == 1 {
        DelimiterHasNoLineBreak(|row|);
        var first := r.text + RowLine(row) + "\n";
        AppendPiece(first, '\n', DelimiterLine(|row|));
        assert first + (DelimiterLine(|row|) + "\n") == first + DelimiterLine(|row|) + "\n";
      } else {
        assert r.text + RowLine(row) + "\n" + "" == r.text + RowLine(row) + "\n";
      }
    }
  }

  function Padded(texts: seq<string>): (pieces: seq<string>)
    ensures |pieces| == |texts| && forall i :: 0 <= i < |texts| ==> pieces[i] == " " + texts[i] + " "
  {
    seq(|texts|, i requires 0 <= i < |texts| => " " + texts[i] + " ")
  }

  lemma {:induction false} RowLinePieces(row: seq<TableCell>)
    requires forall t :: t in CellTexts(row) ==> CleanCell(t)
    ensures Closed(RowLine(row), '|')
    ensures Front(Split(RowLine(row), '|')) == [[]] + Padded(CellTexts(row))
  {
    if row == [] {
      AppendPiece([], '|', []);
      assert [] + [] + ['|'] == RowLine(row);
      assert Front(Split([], '|')) == [];
    } else {
      CleanSplit(row);
      RowLinePieces(Front(row));
      NextCellPiece(RowLine(Front(row)), Last(row).text);
      PaddedSnoc(CellTexts(Front(row)), Last(row).text);
    }
  }

  lemma NextCellPiece(line: string, text: string)
    requires Closed(line, '|') && '|' !in text
    ensures Closed(line + " " + text + " |", '|')
    ensures Front(Split(line + " " + text + " |", '|')) == Front(Split(line, '|')) + [" " + text + " "]
  {
    AppendPiece(line, '|', " " + text + " ");
    assert line + (" " + text + " ") + ['|'] == line + " " + text + " |";
  }

  lemma PaddedSnoc(texts: seq<string>, text: string)
    ensures Padded(texts + [text]) == Padded(texts) + [" " + text + " "]
  {}

  lemma PaddingIsTrimmed(texts: seq<string>)
    requires forall t :: t in texts ==> CleanCell(t)
    ensures TrimAll(Padded(texts)) == texts
  {
    forall i | 0 <= i < |texts|
      ensures Trim(Padded(texts)[i]) == texts[i]
    {
      assert texts[i] in texts;
      TrimPadded(" ", texts[i], " ");
    }
  }

  lemma BetweenBorders(pieces: seq<string>, inner: seq<string>)
    requires pieces != [] && Front(pieces) == [[]] + inner
    ensures |pieces| >= 2 && pieces[0] == [] && pieces[1..|pieces| - 1] == inner
  {
    assert pieces[0] == Front(pieces)[0];
    assert pieces[1..|pieces| - 1] == Front(pieces)[1..];
  }

  lemma RowLineParses(row: seq<TableCell>)
    requires forall t :: t in CellTexts(row) ==> CleanCell(t)
    ensures ParseRow(RowLine(row)) == Some(CellTexts(row))
  {
    RowLinePieces(row);
    LastPieceOfClosed(RowLine(row), '|');
    BetweenBorders(Split(RowLine(row), '|'), Padded(CellTexts(row)));
    PaddingIsTrimmed(CellTexts(row));
  }

  /** The table lines without the delimiter. */
  function BodyLines(lines: seq<string>): seq<string>
    requires |lines| >= 2
  {
    [lines[0]] + lines[2..]
  }

  lemma BodyLinesSnoc(lines: seq<string>, line: string)
    requires |lines| >= 2
    ensures BodyLines(lines + [line]) == BodyLines(lines) + [line]
  {}

  lemma ParseRowsSnoc(lines: seq<string>, line: string)
    ensures ParseRows(lines + [line])
         == if ParseRows(lines).Some? && ParseRow(line).Some?
            then Some(ParseRows(lines).value + [ParseRow(line).value]) else None
  {
    assert Front(lines + [line]) == lines;
  }

  lemma CleanGridSplit(rows: seq<seq<TableCell>>)
    requires CleanCells(GridTexts(rows)) && rows != []
    ensures GridTexts(rows) == GridTexts(Front(rows)) + [CellTexts(Last(rows))]
    ensures CleanCells(GridTexts(Front(rows))) && forall t :: t in CellTexts(Last(rows)) ==> CleanCell(t)
  {
    assert GridTexts(rows) == GridTexts(Front(rows)) + [CellTexts(Last(rows))];
    assert CellTexts(Last(rows)) in GridTexts(rows);
    assert forall t :: t in GridTexts(Front(rows)) ==> t in GridTexts(rows);
  }

  lemma {:induction false} LinesBegin(rows: seq<seq<TableCell>>)
    requires rows != []
    ensures |Lines(rows)| >= 2
    ensures Lines(rows)[0] == RowLine(rows[0]) && Lines(rows)[1] == DelimiterLine(|rows[0]|)
  {
    if |rows| == 1 {
      assert Lines(Front(rows)) == [];
    } else {
      LinesBegin(Front(rows));
      assert Lines(rows) == Lines(Front(rows)) + [RowLine(Last(rows))];
    }
  }

  lemma {:induction false} BodyParses(rows: seq<seq<TableCell>>)
    requires CleanCells(GridTexts(rows)) && rows != []
    ensures |Lines(rows)| >= 2 && ParseRows(BodyLines(Lines(rows))) == Some(GridTexts(rows))
  {
    var line := RowLine(Last(rows));
    CleanGridSplit(rows);
    RowLineParses(Last(rows));
    LinesBegin(rows);
    if |rows| == 1 {
      assert Lines(Front(rows)) == [];
      assert BodyLines(Lines(rows)) == [] + [line];
      ParseRowsSnoc([], line);
      assert GridTexts(Front(rows)) == [];
    } else {
      BodyParses(Front(rows));
      BodyLinesSnoc(Lines(Front(rows)), line);
      ParseRowsSnoc(BodyLines(Lines(Front(rows))), line);
      assert Lines(rows) == Lines(Front(rows)) + [line];
    }
  }

  lemma ParsedRowIsClean(line: string)
    requires '\n' !in line
    ensures ParseRow(line).Some? ==> forall t :: t in ParseRow(line).value ==> CleanCell(t)
  {
    var pieces := Split(line, '|');
    SplitPieces(line, '|');
    if ParseRow(line).Some? {
      var cells := ParseRow(line).value;
      forall t | t in cells
        ensures CleanCell(t)
      {
        var i :| 0 <= i < |cells| && cells[i] == t;
        var piece := pieces[1..|pieces| - 1][i];
        assert piece in pieces;
        TrimTight(Trim(piece));
        TrimKeepsCharacters(piece);
      }
    }
  }

  lemma {:induction false} TrimStartSuffix(s: string)
    ensures forall c :: c in TrimStart(s) ==> c in s
  {
    if s != [] && IsSpace(s[0]) {
      TrimStartSuffix(s[1..]);
    }
  }

  lemma TrimKeepsCharacters(s: string)
    ensures forall c :: c in Trim(s) ==> c in s
  {
    TrimStartSuffix(s);
    TrimEndKeepsFirst(TrimStart(s));
  }

  lemma {:induction false} ParsedRowsAreClean(lines: seq<string>)
    requires forall line :: line in lines ==> '\n' !in line
    ensures ParseRows(lines).Some? ==> CleanCells(ParseRows(lines).value)
  {
    if lines != [] {
      assert Last(lines) in lines && forall line :: line in Front(lines) ==> line in lines;
      ParsedRowsAreClean(Front(lines));
      ParsedRowIsClean(Last(lines));
    }
  }

  /** The rendered rows read back as the grid exactly when every cell is trimmed and free of pipes and line breaks. */
  lemma RenderedTableParsesBack(rows: seq<seq<TableCell>>, page: nat, offset: nat)
    ensures ParseTable(Render(rows, page, offset).text) == Some(GridTexts(rows)) <==> CleanCells(GridTexts(rows))
  {
    var text := Render(rows, page, offset).text;
    var lines := Front(Split(text, '\n'));
    SplitPieces(text, '\n');
    if lines != [] && |lines| >= 2 {
      forall line | line in BodyLines(lines)
        ensures '\n' !in line
      {
        assert line in Split(text, '\n');
      }
      ParsedRowsAreClean([lines[0]] + lines[2..]);
    }
    if CleanCells(GridTexts(rows)) {
      RenderedLines(rows, page, offset);
      if rows == [] {
        assert GridTexts(rows) == [];
      } else {
        LinesBegin(rows);
        BodyParses(rows);
        assert GridTexts(rows)[0] in GridTexts(rows);
        RowLineParses(rows[0]);
      }
    }
  }
}
