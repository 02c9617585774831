/** A page's grid does not depend on where the page lands in the document, and its cells say what its runs say. */
module TableShift {
  import opened Prelude
  import opened Strings
  import opened PdfItems
  import opened Sorting
  import opened PdfTables
  import TableGeometry
  import TableMarkdown

  /** A key that offsets have no part in. */
  ghost predicate Blind(key: Run -> real) {
    forall r: Run, d: nat :: key(r.Shift(d)) == key(r)
  }

  lemma ShiftCons(r: Run, s: seq<Run>, d: nat)
    ensures ShiftAll([r] + s, d) == [r.Shift(d)] + ShiftAll(s, d)
  {}

  lemma ShiftSplit(s: seq<Run>, n: nat, d: nat)
    requires n <= |s|
    ensures ShiftAll(s, d)[..n] == ShiftAll(s[..n], d) && ShiftAll(s, d)[n..] == ShiftAll(s[n..], d)
  {}

  lemma {:induction false} InsertShifts(x: Run, s: seq<Run>, key: Run -> real, d: nat)
    requires Blind(key)
    ensures Insert(x.Shift(d), ShiftAll(s, d), key) == ShiftAll(Insert(x, s, key), d)
  {
    if s == [] || key(x) <= key(s[0]) {
      ShiftCons(x, s, d);
    } else {
      ShiftSplit(s, 1, d);
      InsertShifts(x, s[1..], key, d);
      ShiftCons(s[0], Insert(x, s[1..], key), d);
    }
  }

  lemma {:induction false} SortShifts(s: seq<Run>, key: Run -> real, d: nat)
    requires Blind(key)
    ensures Sort(ShiftAll(s, d), key) == ShiftAll(Sort(s, key), d)
  {
    if s != [] {
      ShiftSplit(s, 1, d);
      SortShifts(s[1..], key, d);
      InsertShifts(s[0], Sort(s[1..], key), key, d);
    }
  }

  /** Part by part, the same runs at shifted offsets. */
  predicate ShiftedParts(parts: seq<seq<Run>>, shifted: seq<seq<Run>>, d: nat) {
    |shifted| == |parts| && forall i :: 0 <= i < |parts| ==> shifted[i] == ShiftAll(parts[i], d)
  }

  lemma ShiftedPartsCons(part: seq<Run>, parts: seq<seq<Run>>, shifted: seq<seq<Run>>, d: nat)
    requires ShiftedParts(parts, shifted, d)
    ensures ShiftedParts([part] + parts, [ShiftAll(part, d)] + shifted, d)
  {}

  lemma {:induction false} RowEndShifts(s: seq<Run>, tolerance: real, k: nat, d: nat)
    requires 1 <= k <= |s|
    ensures RowEnd(ShiftAll(s, d), tolerance, k) == RowEnd(s, tolerance, k)
    decreases |s| - k
  {
    if k < |s| {
      RowEndShifts(s, tolerance, k + 1, d);
    }
  }

  lemma {:induction false} RowsShift(s: seq<Run>, tolerance: real, d: nat)
    ensures ShiftedParts(Rows(s, tolerance), Rows(ShiftAll(s, d), tolerance), d)
  {
    if s != [] {
      var n := RowEnd(s, tolerance, 1);
      RowEndShifts(s, tolerance, 1, d);
      ShiftSplit(s, n, d);
      RowsShift(s[n..], tolerance, d);
      ShiftedPartsCons(s[..n], Rows(s[n..], tolerance), Rows(ShiftAll(s[n..], d), tolerance), d);
    }
  }

  lemma {:induction false} CellEndShifts(s: seq<Run>, gap: real, k: nat, d: nat)
    requires 1 <= k <= |s|
    ensures CellEnd(ShiftAll(s, d), gap, k) == CellEnd(s, gap, k)
    decreases |s| - k
  {
    if k < |s| {
      CellEndShifts(s, gap, k + 1, d);
    }
  }

  lemma {:induction false} CutShifts(s: seq<Run>, gap: real, d: nat)
    ensures ShiftedParts(Cut(s, gap), Cut(ShiftAll(s, d), gap), d)
  {
    if s != [] {
      var n := CellEnd(s, gap, 1);
      CellEndShifts(s, gap, 1, d);
      ShiftSplit(s, n, d);
      CutShifts(s[n..], gap, d);
      ShiftedPartsCons(s[..n], Cut(s[n..], gap), Cut(ShiftAll(s[n..], d), gap), d);
    }
  }

  lemma KeysShift(s: seq<Run>, key: Run -> real, d: nat)
    requires Blind(key)
    ensures Keys(ShiftAll(s, d), key) == Keys(s, key)
  {}

  /** The shifted runs say in the whole text what the runs say in the page's. */
  predicate SameText(runs: seq<Run>, text: string, whole: string, d: nat) {
    forall r :: r in runs ==> Slice(whole, r.start + d, r.end + d) == Slice(text, r.start, r.end)
  }

  lemma CellShifts(cell: seq<Run>, text: string, whole: string, d: nat)
    requires cell != [] && SameText(cell, text, whole, d)
    ensures ToCell(ShiftAll(cell, d), whole) == ToCell(cell, text)
  {
    KeysShift(cell, Left, d);
    KeysShift(cell, Bottom, d);
    KeysShift(cell, Right, d);
    KeysShift(cell, Top, d);
    assert forall i :: 0 <= i < |cell| ==> cell[i] in cell;
    assert Slices(ShiftAll(cell, d), whole) == Slices(cell, text);
  }

  lemma RowCellsShift(row: seq<Run>, gap: real, text: string, whole: string, d: nat)
    requires SameText(row, text, whole, d)
    ensures Cells(ShiftAll(row, d), gap, whole) == Cells(row, gap, text)
  {
    var cells, shifted := CellRuns(row, gap), CellRuns(ShiftAll(row, d), gap);
    SortShifts(row, Left, d);
    CutShifts(Sort(row, Left), gap, d);
    forall i | 0 <= i < |cells|
      ensures ToCell(shifted[i], whole) == ToCell(cells[i], text)
    {
      forall r | r in cells[i]
        ensures r in row
      {
        TableGeometry.CutRunsAreOfTheRow(row, gap, i, r);
      }
      CellShifts(cells[i], text, whole, d);
    }
  }

  lemma UnitShifts(items: seq<Run>, d: nat)
    ensures Unit(ShiftAll(items, d)) == Unit(items)
  {
    KeysShift(items, Height, d);
  }

  lemma PageRowsShift(items: seq<Run>, d: nat)
    ensures ShiftedParts(PageRows(items), PageRows(ShiftAll(items, d)), d)
  {
    UnitShifts(items, d);
    SortShifts(items, Down, d);
    RowsShift(Sort(items, Down), Unit(items) * ROW_TOLERANCE, d);
  }

  lemma RowRunIsOnPage(items: seq<Run>, i: nat, r: Run)
    requires i < |PageRows(items)| && r in PageRows(items)[i]
    ensures r in items
  {
    TableGeometry.PageRowsAreBands(items);
    TableGeometry.InFlatten(PageRows(items), r);
    assert r in multiset(Flatten(PageRows(items)));
  }

  lemma RowSaysTheSame(items: seq<Run>, text: string, whole: string, d: nat, i: nat)
    requires SameText(items, text, whole, d) && i < |PageRows(items)|
    ensures SameText(PageRows(items)[i], text, whole, d)
  {
    forall r | r in PageRows(items)[i]
      ensures r in items
    {
      RowRunIsOnPage(items, i, r);
    }
  }

  lemma TableCellShifts(items: seq<Run>, text: string, whole: string, d: nat, i: nat)
    requires SameText(items, text, whole, d) && i < |PageRows(items)|
    requires |PageRows(ShiftAll(items, d))| == |PageRows(items)|
    ensures TableCells(ShiftAll(items, d), whole)[i] == TableCells(items, text)[i]
  {
    var row, gap := PageRows(items)[i], Unit(items) * CELL_GAP;
    UnitShifts(items, d);
    PageRowShifts(items, d, i);
    RowSaysTheSame(items, text, whole, d, i);
    RowCellsShift(row, gap, text, whole, d);
    RowOfTable(items, text, i);
    RowOfTable(ShiftAll(items, d), whole, i);
  }

  lemma PageRowShifts(items: seq<Run>, d: nat, i: nat)
    requires i < |PageRows(items)| == |PageRows(ShiftAll(items, d))|
    ensures PageRows(ShiftAll(items, d))[i] == ShiftAll(PageRows(items)[i], d)
  {
    PageRowsShift(items, d);
  }

  lemma RowOfTable(items: seq<Run>, text: string, i: nat)
    requires i < |PageRows(items)|
    ensures TableCells(items, text)[i] == Cells(PageRows(items)[i], Unit(items) * CELL_GAP, text)
  {}

  lemma TableCellsShift(items: seq<Run>, text: string, whole: string, d: nat)
    requires SameText(items, text, whole, d)
    ensures TableCells(ShiftAll(items, d), whole) == TableCells(items, text)
  {
    PageRowsShift(items, d);
    forall i | 0 <= i < |PageRows(items)|
      ensures TableCells(ShiftAll(items, d), whole)[i] == TableCells(items, text)[i]
    {
      TableCellShifts(items, text, whole, d, i);
    }
  }

  /** Wherever the page lands, the same grid is found in it, or none. */
  lemma DetectionIsLocal(items: seq<Run>, text: string, whole: string, d: nat)
    requires SameText(items, text, whole, d)
    ensures Table(ShiftAll(items, d), whole) == Table(items, text)
  {
    UnitShifts(items, d);
    TableCellsShift(items, text, whole, d);
  }

  // ----- What the cells say -----

  /** The word that goes with a run. */
  function WordOf(items: seq<Run>, words: seq<string>, r: Run): string
    requires |items| == |words|
  {
    if items == [] then [] else if items[0] == r then words[0] else WordOf(items[1..], words[1..], r)
  }

  function WordsOf(items: seq<Run>, words: seq<string>, cell: seq<Run>): (said: seq<string>)
    requires |items| == |words|
    ensures |said| == |cell| && forall i :: 0 <= i < |cell| ==> said[i] == WordOf(items, words, cell[i])
  {
    seq(|cell|, i requires 0 <= i < |cell| => WordOf(items, words, cell[i]))
  }

  /** What a cell should say: the words of its runs from left to right, with spaces between, trimmed. */
  function CellWords(items: seq<Run>, words: seq<string>, cell: seq<Run>): string
    requires |items| == |words|
  {
    Trim(Join(WordsOf(items, words, cell), " "))
  }

  function RowWords(items: seq<Run>, words: seq<string>, row: seq<seq<Run>>): (said: seq<string>)
    requires |items| == |words|
    ensures |said| == |row| && forall j :: 0 <= j < |row| ==> said[j] == CellWords(items, words, row[j])
  {
    seq(|row|, j requires 0 <= j < |row| => CellWords(items, words, row[j]))
  }

  /** What a grid should say, row by row. */
  function GridWords(items: seq<Run>, words: seq<string>, grid: seq<seq<seq<Run>>>): seq<string>
    requires |items| == |words|
  {
    if grid == [] then [] else RowWords(items, words, grid[0]) + GridWords(items, words, grid[1..])
  }

  lemma {:induction false} WordOfIsSelected(text: string, items: seq<Run>, words: seq<string>, r: Run)
    requires |items| == |words| && r in items
    requires forall i :: 0 <= i < |items| ==> Selects(text, items[i], words[i])
    ensures WordOf(items, words, r) == Slice(text, r.start, r.end)
  {
    if items[0] != r {
      assert items == [items[0]] + items[1..];
      forall i | 0 <= i < |items[1..]|
        ensures Selects(text, items[1..][i], words[1..][i])
      {
        assert Selects(text, items[i + 1], words[i + 1]);
      }
      WordOfIsSelected(text, items[1..], words[1..], r);
    } else {
      assert Selects(text, items[0], words[0]);
    }
  }

  lemma CellSays(text: string, items: seq<Run>, words: seq<string>, cell: seq<Run>)
    requires Anchors(text, items, words) && cell != [] && forall r :: r in cell ==> r in items
    ensures ToCell(cell, text).text == CellWords(items, words, cell)
  {
    forall i | 0 <= i < |cell|
      ensures WordsOf(items, words, cell)[i] == Slices(cell, text)[i]
    {
      assert cell[i] in cell;
      WordOfIsSelected(text, items, words, cell[i]);
    }
    assert WordsOf(items, words, cell) == Slices(cell, text);
  }

  lemma RowSays(text: string, items: seq<Run>, words: seq<string>, row: seq<seq<Run>>, cells: seq<TableCell>)
    requires Anchors(text, items, words) && |cells| == |row|
    requires forall j :: 0 <= j < |row| ==> row[j] != [] && cells[j] == ToCell(row[j], text)
    requires forall j, r :: 0 <= j < |row| && r in row[j] ==> r in items
    ensures TableMarkdown.CellTexts(cells) == RowWords(items, words, row)
  {
    forall j | 0 <= j < |row|
      ensures cells[j].text == CellWords(items, words, row[j])
    {
      CellSays(text, items, words, row[j]);
    }
  }

  predicate RowsFrom(rows: seq<seq<TableCell>>, text: string, items: seq<Run>, grid: seq<seq<seq<Run>>>) {
    |rows| == |grid| && forall i :: 0 <= i < |grid| ==> RowFrom(rows[i], text, items, grid[i])
  }

  /** The cells of a row, each made of its own runs of the page. */
  predicate RowFrom(cells: seq<TableCell>, text: string, items: seq<Run>, row: seq<seq<Run>>) {
    && |cells| == |row|
    && (forall j :: 0 <= j < |row| ==> row[j] != [] && cells[j] == ToCell(row[j], text))
    && (forall j, r :: 0 <= j < |row| && r in row[j] ==> r in items)
  }

  lemma {:induction false} RowsSay(text: string, items: seq<Run>, words: seq<string>,
                                   grid: seq<seq<seq<Run>>>, rows: seq<seq<TableCell>>)
    requires Anchors(text, items, words) && RowsFrom(rows, text, items, grid)
    ensures TableMarkdown.CellTexts(Flatten(rows)) == GridWords(items, words, grid)
  {
    if grid != [] {
      assert RowFrom(rows[0], text, items, grid[0]);
      RowSays(text, items, words, grid[0], rows[0]);
      forall i | 0 <= i < |grid[1..]|
        ensures RowFrom(rows[1..][i], text, items, grid[1..][i])
      {
        assert RowFrom(rows[i + 1], text, items, grid[i + 1]);
      }
      RowsSay(text, items, words, grid[1..], rows[1..]);
      assert TableMarkdown.CellTexts(rows[0] + Flatten(rows[1..]))
          == TableMarkdown.CellTexts(rows[0]) + TableMarkdown.CellTexts(Flatten(rows[1..]));
    }
  }

  lemma GridRowIsFrom(items: seq<Run>, text: string, i: nat)
    requires i < |PageRows(items)|
    ensures RowFrom(TableCells(items, text)[i], text, items, TableGeometry.Grid(items)[i])
  {
    var gap := Unit(items) * CELL_GAP;
    var row := PageRows(items)[i];
    forall j, r | 0 <= j < |CellRuns(row, gap)| && r in CellRuns(row, gap)[j]
      ensures r in items
    {
      TableGeometry.CutRunsAreOfTheRow(row, gap, j, r);
      RowRunIsOnPage(items, i, r);
    }
  }

  /** The cells of a detected table say exactly what the runs of the grid say. */
  lemma TableSays(text: string, items: seq<Run>, words: seq<string>)
    requires Anchors(text, items, words) && Table(items, text).Some?
    ensures TableMarkdown.CellTexts(Flatten(Table(items, text).value))
         == GridWords(items, words, TableGeometry.Grid(items))
  {
    var grid, rows := TableGeometry.Grid(items), TableCells(items, text);
    forall i | 0 <= i < |grid|
      ensures RowFrom(rows[i], text, items, grid[i])
    {
      GridRowIsFrom(items, text, i);
    }
    RowsSay(text, items, words, grid, rows);
  }
}
