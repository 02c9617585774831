/** Exactly when a page holds a table, and exactly where its rows and cells are cut. */
module TableDetection {
  import opened Prelude
  import opened PdfItems
  import opened Sorting
  import opened PdfTables
  import opened TableGeometry

  /** Rows are bands of half a unit: no run is further below its row's first, and any later row is all further. */
  lemma RowsAreHalfAUnit(items: seq<Run>)
    ensures var rows, half := PageRows(items), Unit(items) / 2.0;
      && multiset(Flatten(rows)) == multiset(items)
      && (forall i :: 0 <= i < |rows| ==> rows[i] != [])
      && (forall i, r :: 0 <= i < |rows| && r in rows[i] ==> rows[i][0].y - half <= r.y <= rows[i][0].y)
      && (forall i, j, r :: 0 <= i < j < |rows| && r in rows[j] ==> r.y < rows[i][0].y - half)
  {
    PageRowsAreBands(items);
    assert Unit(items) * ROW_TOLERANCE == Unit(items) / 2.0;
    forall i | 0 <= i < |PageRows(items)|
      ensures Band(PageRows(items)[i], Unit(items) / 2.0)
    {}
  }

  lemma {:induction false} NoGutterInsideCut(s: seq<Run>, gap: real, j: nat, k: nat)
    requires j < |Cut(s, gap)| && 0 < k < |Cut(s, gap)[j]|
    ensures !Gutter(Cut(s, gap)[j][k - 1], Cut(s, gap)[j][k], gap)
    decreases |s|
  {
    var n := CellEnd(s, gap, 1);
    if j > 0 {
      NoGutterInsideCut(s[n..], gap, j - 1, k);
    } else {
      NoGutterBefore(s, gap, 1, k);
    }
  }

  lemma {:induction false} NoGutterBefore(s: seq<Run>, gap: real, from: nat, k: nat)
    requires 1 <= from <= |s| && from <= k < CellEnd(s, gap, from)
    ensures !Gutter(s[k - 1], s[k], gap)
    decreases |s| - from
  {
    if k > from {
      NoGutterBefore(s, gap, from + 1, k);
    }
  }

  predicate LeftToRight(s: seq<Run>) {
    forall j, k :: 0 <= j < k < |s| ==> s[j].x <= s[k].x
  }

  /** The white space from the end of one run to the start of the next. */
  function White(a: Run, b: Run): real {
    b.x - (a.x + a.width)
  }

  /** A cell: at least one run, and no white space inside that is more than the gap. */
  predicate Unbroken(cell: seq<Run>, gap: real) {
    cell != [] && forall k :: 0 < k < |cell| ==> White(cell[k - 1], cell[k]) <= gap
  }

  /** More than the gap of white space before this cell. */
  predicate BreakBefore(row: seq<seq<Run>>, j: nat, gap: real)
    requires 0 < j < |row|
  {
    row[j - 1] != [] && row[j] != [] && White(Last(row[j - 1]), row[j][0]) > gap
  }

  predicate CutAtWhiteSpace(row: seq<seq<Run>>, gap: real) {
    && (forall j :: 0 <= j < |row| ==> Unbroken(row[j], gap))
    && (forall j :: 0 < j < |row| ==> BreakBefore(row, j, gap))
  }

  lemma CutIsAtWhiteSpace(s: seq<Run>, gap: real)
    requires Sorted(s, Left)
    ensures CutAtWhiteSpace(Cut(s, gap), gap)
  {
    CutPieces(s, gap);
    CutAtGutters(s, gap);
    var row := Cut(s, gap);
    forall j | 0 <= j < |row|
      ensures Unbroken(row[j], gap)
    {
      forall k | 0 < k < |row[j]|
        ensures White(row[j][k - 1], row[j][k]) <= gap
      {
        NoGutterInsideCut(s, gap, j, k);
      }
    }
    forall j | 0 < j < |row|
      ensures BreakBefore(row, j, gap)
    {
      assert GutterBetween(row, gap, j - 1);
    }
  }

  lemma SortedRuns(s: seq<Run>)
    requires Sorted(s, Left)
    ensures LeftToRight(s)
  {
    forall j, k | 0 <= j < k < |s|
      ensures s[j].x <= s[k].x
    {
      assert Left(s[j]) <= Left(s[k]);
    }
  }

  /** The cells of each row of the page are those cuts, at white space of more than four fifths of the unit. */
  lemma GridRow(items: seq<Run>, i: nat)
    requires i < |PageRows(items)|
    ensures |Grid(items)| == |PageRows(items)|
    ensures Grid(items)[i] == Cut(Sort(PageRows(items)[i], Left), Unit(items) * 0.8)
  {}

  /** These cells are the runs of the row, from left to right, cut at its white space. */
  predicate IsCutRow(row: seq<Run>, cells: seq<seq<Run>>, gap: real) {
    multiset(Flatten(cells)) == multiset(row) && LeftToRight(Flatten(cells)) && CutAtWhiteSpace(cells, gap)
  }

  /** A row's cells are its runs from left to right, cut exactly where there is more white space than the gap. */
  lemma RowIsCut(row: seq<Run>, gap: real)
    ensures IsCutRow(row, Cut(Sort(row, Left), gap), gap)
  {
    SortSorts(row, Left);
    CutPieces(Sort(row, Left), gap);
    CutIsAtWhiteSpace(Sort(row, Left), gap);
    SortedRuns(Sort(row, Left));
  }

  /** Within a column, no two left edges are more than the unit apart. */
  predicate Straight(rows: seq<seq<TableCell>>, column: nat, unit: real)
    requires forall i :: 0 <= i < |rows| ==> column < |rows[i]|
  {
    forall i, j :: 0 <= i < |rows| && 0 <= j < |rows| ==> rows[i][column].x - rows[j][column].x <= unit
  }

  lemma StraightIffAligned(rows: seq<seq<TableCell>>, column: nat, unit: real)
    requires rows != [] && forall i :: 0 <= i < |rows| ==> column < |rows[i]|
    ensures Aligned(rows, column, unit) <==> Straight(rows, column, unit)
  {
    var lefts := Lefts(rows, column);
    LeastIsLeast(lefts);
    GreatestIsGreatest(lefts);
    forall i | 0 <= i < |rows|
      ensures LeastOf(lefts) <= rows[i][column].x <= GreatestOf(lefts)
    {
      assert lefts[i] in lefts;
    }
    var i :| 0 <= i < |lefts| && lefts[i] == GreatestOf(lefts);
    var j :| 0 <= j < |lefts| && lefts[j] == LeastOf(lefts);
    assert rows[i][column].x - rows[j][column].x == GreatestOf(lefts) - LeastOf(lefts);
  }

  /** At least three rows of equally many cells, at least two; straight columns; no blank cell. */
  predicate IsTable(rows: seq<seq<TableCell>>, unit: real) {
    && |rows| >= 3 && |rows[0]| >= 2
    && (forall i :: 0 <= i < |rows| ==> |rows[i]| == |rows[0]|)
    && (forall column :: 0 <= column < |rows[0]| ==> Straight(rows, column, unit))
    && (forall i, j :: 0 <= i < |rows| && 0 <= j < |rows[i]| ==> rows[i][j].text != [])
  }

  /** A table is detected exactly then, and it is all the rows of the page. */
  lemma DetectedIff(items: seq<Run>, text: string)
    ensures Table(items, text)
         == if items != [] && IsTable(TableCells(items, text), Unit(items)) then Some(TableCells(items, text)) else None
  {
    var rows, unit := TableCells(items, text), Unit(items);
    if |rows| >= 3 && Rectangular(rows, |rows[0]|) {
      forall column | 0 <= column < |rows[0]|
        ensures Aligned(rows, column, unit) <==> Straight(rows, column, unit)
      {
        StraightIffAligned(rows, column, unit);
      }
    }
  }
}
