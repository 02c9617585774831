/** What a detected table is, how few rows it has, and what it owes to the order of the runs. */
module TableGeometry {
  import opened Prelude
  import opened Strings
  import opened PdfItems
  import opened Sorting
  import opened PdfTables

  lemma {:induction false} InFlatten<T>(parts: seq<seq<T>>, x: T)
    ensures x in Flatten(parts) <==> exists i :: 0 <= i < |parts| && x in parts[i]
  {
    if parts != [] {
      InFlatten(parts[1..], x);
      if x in Flatten(parts[1..]) {
        var i :| 0 <= i < |parts[1..]| && x in parts[1..][i];
        assert x in parts[i + 1];
      }
      if exists i :: 0 < i < |parts| && x in parts[i] {
        var i :| 0 < i < |parts| && x in parts[i];
        assert x in parts[1..][i - 1];
      }
    }
  }

  // ----- Rows -----

  /** Every run of a row is level with its first run or below it, by at most the tolerance. */
  predicate Band(row: seq<Run>, tolerance: real) {
    row != [] && forall r :: r in row ==> row[0].y - tolerance <= r.y <= row[0].y
  }

  predicate InBand(rows: seq<seq<Run>>, tolerance: real) {
    forall i :: 0 <= i < |rows| ==>
      Band(rows[i], tolerance)
  }

  /** Every later run is more than the tolerance below the first run of a row. */
  predicate Apart(rows: seq<seq<Run>>, tolerance: real) {
    forall i, j, r :: 0 <= i < j < |rows| && r in rows[j] ==> rows[i] != [] && rows[i][0].y - r.y > tolerance
  }

  lemma RowHead(s: seq<Run>, tolerance: real)
    requires s != [] && Sorted(s, Down) && tolerance >= 0.0
    ensures var n := RowEnd(s, tolerance, 1);
      && (forall r :: r in s[..n] ==> s[0].y - tolerance <= r.y <= s[0].y)
      && (forall r :: r in s[n..] ==> s[0].y - r.y > tolerance)
      && (n < |s| ==> Down(s[n - 1]) < Down(s[n]))
  {
    var n := RowEnd(s, tolerance, 1);
    RowEndStops(s, tolerance, 1);
    forall i | 0 <= i < n
      ensures s[0].y - tolerance <= s[i].y <= s[0].y
    {
      assert Down(s[0]) <= Down(s[i]);
    }
    forall i | n <= i < |s|
      ensures s[0].y - s[i].y > tolerance
    {
      assert Down(s[0]) <= Down(s[n]) && (n < i ==> Down(s[n]) <= Down(s[i]));
    }
  }

  lemma SortedRest(s: seq<Run>, key: Run -> real, n: nat)
    requires Sorted(s, key) && n <= |s|
    ensures Sorted(s[n..], key) && Sorted(s[..n], key)
  {}

  lemma ApartCons(row: seq<Run>, rest: seq<seq<Run>>, tolerance: real)
    requires row != [] && Apart(rest, tolerance)
    requires forall r :: r in Flatten(rest) ==> row[0].y - r.y > tolerance
    ensures Apart([row] + rest, tolerance)
  {
    var rows: seq<seq<Run>> := [row] + rest;
    forall i: nat, j: nat, r: Run | 0 <= i < j < |rows| && r in rows[j]
      ensures rows[i] != [] && rows[i][0].y - r.y > tolerance
    {
      assert rows[j] == rest[j - 1] && (i > 0 ==> rows[i] == rest[i - 1]);
      InFlatten(rest, r);
    }
  }

  lemma InBandCons(row: seq<Run>, rest: seq<seq<Run>>, tolerance: real)
    requires Band(row, tolerance) && InBand(rest, tolerance)
    ensures InBand([row] + rest, tolerance)
  {
    var rows := [row] + rest;
    forall i | 0 <= i < |rows|
      ensures Band(rows[i], tolerance)
    {
      assert i > 0 ==> rows[i] == rest[i - 1];
    }
  }

  lemma FlattenCons<T>(first: seq<T>, rest: seq<seq<T>>)
    ensures Flatten([first] + rest) == first + Flatten(rest)
  {
    assert ([first] + rest)[1..] == rest;
  }

  lemma {:induction false} RowsAreBands(s: seq<Run>, tolerance: real)
    requires Sorted(s, Down) && tolerance >= 0.0
    ensures Flatten(Rows(s, tolerance)) == s
    ensures InBand(Rows(s, tolerance), tolerance) && Apart(Rows(s, tolerance), tolerance)
  {
    if s != [] {
      var n := RowEnd(s, tolerance, 1);
      var row, below := s[..n], s[n..];
      RowHead(s, tolerance);
      SortedRest(s, Down, n);
      RowsAreBands(below, tolerance);
      var rest := Rows(below, tolerance);
      assert row[0] == s[0] && row + below == s;
      ApartCons(row, rest, tolerance);
      InBandCons(row, rest, tolerance);
      FlattenCons(row, rest);
    }
  }

  /** Greedy grouping: the sorted runs cut into bands, each more than the tolerance below the one before. */
  lemma GroupedRowsAreBands(items: seq<Run>, tolerance: real)
    requires tolerance >= 0.0
    ensures var rows := Rows(Sort(items, Down), tolerance);
      && Flatten(rows) == Sort(items, Down) && multiset(Flatten(rows)) == multiset(items)
      && InBand(rows, tolerance) && Apart(rows, tolerance)
  {
    SortSorts(items, Down);
    RowsAreBands(Sort(items, Down), tolerance);
  }

  lemma {:induction false} Pigeonhole(f: seq<nat>, m: nat)
    requires forall i :: 0 <= i < |f| ==> f[i] < m
    requires forall i, j :: 0 <= i < j < |f| ==> f[i] != f[j]
    ensures |f| <= m
    decreases m
  {
    if f != [] {
      assert f[0] < m;
      if m - 1 in f {
        var k :| 0 <= k < |f| && f[k] == m - 1;
        var g := f[..k] + f[k + 1..];
        assert forall i :: 0 <= i < |g| ==> g[i] == if i < k then f[i] else f[i + 1];
        Pigeonhole(g, m - 1);
      } else {
        Pigeonhole(f, m - 1);
      }
    }
  }

  predicate Level(group: seq<Run>, tolerance: real) {
    forall a, b :: a in group && b in group ==> a.y - b.y <= tolerance
  }

  ghost function GroupWith(groups: seq<seq<Run>>, r: Run): (g: nat)
    requires r in Flatten(groups)
    ensures g < |groups| && r in groups[g]
  {
    InFlatten(groups, r);
    var g :| 0 <= g < |groups| && r in groups[g];
    g
  }

  /** Runs that are pairwise more than the tolerance apart need a group each. */
  lemma FarRunsNeedGroups(far: seq<Run>, tolerance: real, groups: seq<seq<Run>>)
    requires forall i, j :: 0 <= i < j < |far| ==> far[i].y - far[j].y > tolerance
    requires forall i :: 0 <= i < |far| ==> far[i] in Flatten(groups)
    requires forall g :: 0 <= g < |groups| ==> Level(groups[g], tolerance)
    ensures |far| <= |groups|
  {
    var holders := seq(|far|, i requires 0 <= i < |far| => GroupWith(groups, far[i]));
    forall i, j | 0 <= i < j < |far|
      ensures holders[i] != holders[j]
    {
      assert Level(groups[holders[i]], tolerance);
    }
    Pigeonhole(holders, |groups|);
  }

  function Heads(rows: seq<seq<Run>>): (heads: seq<Run>)
    requires forall i :: 0 <= i < |rows| ==> rows[i] != []
    ensures |heads| == |rows| && forall i :: 0 <= i < |rows| ==> heads[i] == rows[i][0]
  {
    seq(|rows|, i requires 0 <= i < |rows| => rows[i][0])
  }

  lemma HeadsAreFar(rows: seq<seq<Run>>, tolerance: real)
    requires InBand(rows, tolerance) && Apart(rows, tolerance)
    ensures forall i, j :: 0 <= i < j < |rows| ==> Heads(rows)[i].y - Heads(rows)[j].y > tolerance
  {
    forall i, j | 0 <= i < j < |rows|
      ensures Heads(rows)[i].y - Heads(rows)[j].y > tolerance
    {
      assert rows[j][0] in rows[j];
    }
  }

  /** No way of sharing the runs out among groups of that spread uses fewer groups. */
  lemma FewestRows(items: seq<Run>, tolerance: real, groups: seq<seq<Run>>)
    requires tolerance >= 0.0
    requires multiset(Flatten(groups)) == multiset(items)
    requires forall g :: 0 <= g < |groups| ==> Level(groups[g], tolerance)
    ensures |Rows(Sort(items, Down), tolerance)| <= |groups|
  {
    GroupedRowsAreBands(items, tolerance);
    var rows := Rows(Sort(items, Down), tolerance);
    RowsNeedGroups(rows, tolerance, groups);
  }

  lemma RowsNeedGroups(rows: seq<seq<Run>>, tolerance: real, groups: seq<seq<Run>>)
    requires InBand(rows, tolerance) && Apart(rows, tolerance)
    requires multiset(Flatten(groups)) == multiset(Flatten(rows))
    requires forall g :: 0 <= g < |groups| ==> Level(groups[g], tolerance)
    ensures |rows| <= |groups|
  {
    HeadsAreFar(rows, tolerance);
    var far, all := Heads(rows), Flatten(groups);
    forall i | 0 <= i < |far|
      ensures far[i] in all
    {
      InFlatten(rows, rows[i][0]);
      SameMembers(Flatten(rows), all, rows[i][0]);
    }
    FarRunsNeedGroups(far, tolerance, groups);
  }

  lemma SameMembers<T>(a: seq<T>, b: seq<T>, x: T)
    requires multiset(a) == multiset(b) && x in a
    ensures x in b
  {
    assert x in multiset(a);
  }

  // ----- Cells -----

  /** A cell's box bounds its runs, and a run attains each of its edges. */
  lemma CellIsTight(runs: seq<Run>, text: string)
    requires runs != []
    ensures var c := ToCell(runs, text);
      && (forall r :: r in runs ==> c.x <= r.x && r.x + r.width <= c.x + c.width)
      && (forall r :: r in runs ==> c.y <= r.y && r.y + r.height <= c.y + c.height)
      && (exists r :: r in runs && r.x == c.x) && (exists r :: r in runs && r.x + r.width == c.x + c.width)
      && (exists r :: r in runs && r.y == c.y) && (exists r :: r in runs && r.y + r.height == c.y + c.height)
      && (c.text == [] || Tight(c.text))
  {
    LeastKey(runs, Left);
    LeastKey(runs, Bottom);
    GreatestKey(runs, Right);
    GreatestKey(runs, Top);
    assert forall r: Run :: Left(r) == r.x && Bottom(r) == r.y;
    assert forall r: Run :: Right(r) == r.x + r.width && Top(r) == r.y + r.height;
  }

  lemma LeastKey(runs: seq<Run>, key: Run -> real)
    requires runs != []
    ensures var m := LeastOf(Keys(runs, key));
      (forall r :: r in runs ==> m <= key(r)) && exists r :: r in runs && key(r) == m
  {
    var keys := Keys(runs, key);
    LeastIsLeast(keys);
    forall r | r in runs
      ensures LeastOf(keys) <= key(r)
    {
      var i :| 0 <= i < |runs| && runs[i] == r;
      assert keys[i] in keys;
    }
    var i :| 0 <= i < |keys| && keys[i] == LeastOf(keys);
    assert runs[i] in runs;
  }

  lemma GreatestKey(runs: seq<Run>, key: Run -> real)
    requires runs != []
    ensures var m := GreatestOf(Keys(runs, key));
      (forall r :: r in runs ==> key(r) <= m) && exists r :: r in runs && key(r) == m
  {
    var keys := Keys(runs, key);
    GreatestIsGreatest(keys);
    forall r | r in runs
      ensures key(r) <= GreatestOf(keys)
    {
      var i :| 0 <= i < |runs| && runs[i] == r;
      assert keys[i] in keys;
    }
    var i :| 0 <= i < |keys| && keys[i] == GreatestOf(keys);
    assert runs[i] in runs;
  }

  /** Neighbouring cells of a cut row: a gutter between the last run of one and the first of the next. */
  predicate GutterBetween(cells: seq<seq<Run>>, gap: real, i: nat)
    requires i + 1 < |cells|
  {
    && cells[i] != [] && cells[i + 1] != []
    && Gutter(Last(cells[i]), cells[i + 1][0], gap)
  }

  lemma {:induction false} CutAtGutters(s: seq<Run>, gap: real)
    requires Sorted(s, Left)
    ensures var cells := Cut(s, gap);
      && (forall i :: 0 <= i < |cells| ==> cells[i] != [] && Sorted(cells[i], Left))
      && (forall i :: 0 <= i < |cells| - 1 ==> GutterBetween(cells, gap, i))
      && (s != [] ==> cells != [] && cells[0][0] == s[0])
  {
    if s != [] {
      var n := CellEnd(s, gap, 1);
      CellEndStops(s, gap, 1);
      SortedRest(s, Left, n);
      CutAtGutters(s[n..], gap);
      var rest := Cut(s[n..], gap);
      var cells := [s[..n]] + rest;
      forall i | 0 <= i < |cells| - 1
        ensures GutterBetween(cells, gap, i)
      {
        if i == 0 {
          assert cells[1] == rest[0] && rest[0][0] == s[n];
        } else {
          assert GutterBetween(rest, gap, i - 1);
        }
      }
    }
  }

  lemma LeftOfSortedCell(runs: seq<Run>, text: string)
    requires runs != [] && Sorted(runs, Left)
    ensures ToCell(runs, text).x == runs[0].x
  {
    LeastKey(runs, Left);
    var r :| r in runs && Left(r) == LeastOf(Keys(runs, Left));
    var k :| 0 <= k < |runs| && runs[k] == r;
    assert Left(runs[0]) <= Left(runs[k]);
    assert runs[0] in runs;
  }

  predicate NoNegativeWidths(runs: seq<Run>) {
    forall r :: r in runs ==> r.width >= 0.0
  }

  lemma CutRunsAreOfTheRow(row: seq<Run>, gap: real, i: nat, r: Run)
    requires i < |Cut(Sort(row, Left), gap)| && r in Cut(Sort(row, Left), gap)[i]
    ensures r in row
  {
    var s := Sort(row, Left);
    CutPieces(s, gap);
    InFlatten(Cut(s, gap), r);
    SortSorts(row, Left);
    assert r in multiset(s);
  }

  lemma NeighboursAdvance(left: seq<Run>, right: seq<Run>, gap: real, text: string)
    requires left != [] && right != [] && Sorted(left, Left) && Sorted(right, Left)
    requires Gutter(Last(left), right[0], gap) && Last(left).width >= 0.0
    ensures ToCell(left, text).x + gap < ToCell(right, text).x
  {
    LeftOfSortedCell(left, text);
    LeftOfSortedCell(right, text);
    assert |left| > 1 ==> Left(left[0]) <= Left(left[|left| - 1]);
  }

  /** Across a row, left edges advance by more than the gap. */
  lemma LeftEdgesAdvance(row: seq<Run>, gap: real, text: string, j: nat, k: nat)
    requires gap >= 0.0 && NoNegativeWidths(row)
    requires j < k < |Cells(row, gap, text)|
    ensures Cells(row, gap, text)[j].x + gap < Cells(row, gap, text)[k].x
    decreases k - j
  {
    var s := Sort(row, Left);
    var cells := CellRuns(row, gap);
    SortSorts(row, Left);
    CutAtGutters(s, gap);
    assert GutterBetween(cells, gap, k - 1);
    CutRunsAreOfTheRow(row, gap, k - 1, Last(cells[k - 1]));
    NeighboursAdvance(cells[k - 1], cells[k], gap, text);
    if j < k - 1 {
      LeftEdgesAdvance(row, gap, text, j, k - 1);
    }
  }

  // ----- The grid -----

  lemma {:induction false} PositiveIsPositive(values: seq<real>)
    ensures forall v :: v in Positive(values) ==> v > 0.0
  {
    if values != [] {
      PositiveIsPositive(values[1..]);
    }
  }

  lemma UnitIsPositive(items: seq<Run>)
    ensures Unit(items) > 0.0
  {
    var values := Positive(Keys(items, Height));
    PositiveIsPositive(Keys(items, Height));
    SortSorts(values, Identity);
    var sorted := Sort(values, Identity);
    if sorted != [] {
      assert sorted[|sorted| / 2] in multiset(sorted);
      assert sorted[|sorted| / 2] in values;
    }
  }

  lemma CellsKeepTheRow(row: seq<Run>, gap: real)
    ensures multiset(Flatten(CellRuns(row, gap))) == multiset(row)
  {
    SortSorts(row, Left);
    CutPieces(Sort(row, Left), gap);
  }

  lemma {:induction false} GridKeepsRows(rows: seq<seq<Run>>, gap: real)
    ensures multiset(Flatten(Flatten(GridOf(rows, gap)))) == multiset(Flatten(rows))
  {
    if rows != [] {
      var grid := GridOf(rows, gap);
      assert grid[1..] == GridOf(rows[1..], gap);
      GridKeepsRows(rows[1..], gap);
      FlattenAppend(grid[0], Flatten(grid[1..]));
      CellsKeepTheRow(rows[0], gap);
    }
  }

  function Grid(items: seq<Run>): seq<seq<seq<Run>>> {
    GridOf(PageRows(items), Unit(items) * CELL_GAP)
  }

  lemma PageRowsAreBands(items: seq<Run>)
    ensures var rows, tolerance := PageRows(items), Unit(items) * ROW_TOLERANCE;
      multiset(Flatten(rows)) == multiset(items) && InBand(rows, tolerance) && Apart(rows, tolerance)
  {
    UnitIsPositive(items);
    GroupedRowsAreBands(items, Unit(items) * ROW_TOLERANCE);
  }

  /** Every run of the page lies in exactly one cell of the grid. */
  lemma GridKeepsEveryRun(items: seq<Run>)
    ensures multiset(Flatten(Flatten(Grid(items)))) == multiset(items)
  {
    PageRowsAreBands(items);
    GridKeepsRows(PageRows(items), Unit(items) * CELL_GAP);
  }

  /** A run of a cell is a run of its row. */
  lemma CellRunInRow(row: seq<Run>, gap: real, j: nat, r: Run)
    requires j < |CellRuns(row, gap)| && r in CellRuns(row, gap)[j]
    ensures r in row
  {
    CellsKeepTheRow(row, gap);
    InFlatten(CellRuns(row, gap), r);
    assert r in multiset(Flatten(CellRuns(row, gap)));
  }

  lemma LowerCell(rows: seq<seq<Run>>, tolerance: real, gap: real, text: string, i: nat, i': nat, j: nat, j': nat)
    requires InBand(rows, tolerance) && Apart(rows, tolerance)
    requires i < i' < |rows| && j < |CellRuns(rows[i], gap)| && j' < |CellRuns(rows[i'], gap)|
    ensures ToCell(CellRuns(rows[i'], gap)[j'], text).y < ToCell(CellRuns(rows[i], gap)[j], text).y
  {
    var upper, lower := CellRuns(rows[i], gap)[j], CellRuns(rows[i'], gap)[j'];
    LeastKey(upper, Bottom);
    LeastKey(lower, Bottom);
    var u :| u in upper && Bottom(u) == LeastOf(Keys(upper, Bottom));
    var l := lower[0];
    assert l in lower && Bottom(l) >= LeastOf(Keys(lower, Bottom));
    CellRunInRow(rows[i], gap, j, u);
    CellRunInRow(rows[i'], gap, j', l);
    assert rows[i][0].y - l.y > tolerance && rows[i][0].y - tolerance <= u.y;
  }

  /** Any cell lies strictly lower than any cell of an earlier row. */
  lemma RowsDescend(items: seq<Run>, text: string, i: nat, i': nat, j: nat, j': nat)
    requires i < i' < |TableCells(items, text)|
    requires j < |TableCells(items, text)[i]| && j' < |TableCells(items, text)[i']|
    ensures TableCells(items, text)[i'][j'].y < TableCells(items, text)[i][j].y
  {
    PageRowsAreBands(items);
    LowerCell(PageRows(items), Unit(items) * ROW_TOLERANCE, Unit(items) * CELL_GAP, text, i, i', j, j');
  }

  /** Left edges of a column stay within one unit of each other. */
  lemma ColumnIsAligned(rows: seq<seq<TableCell>>, unit: real, column: nat, i: nat, i': nat)
    requires Regular(rows, unit) && column < |rows[0]| && i < |rows| && i' < |rows|
    ensures rows[i][column].x - rows[i'][column].x <= unit
  {
    assert Aligned(rows, column, unit);
    var lefts := Lefts(rows, column);
    LeastIsLeast(lefts);
    GreatestIsGreatest(lefts);
    assert lefts[i] in lefts && lefts[i'] in lefts;
  }

  /** Every cell is the tight box and the trimmed text of its own runs, and none is blank. */
  predicate MadeOfItsRuns(rows: seq<seq<TableCell>>, grid: seq<seq<seq<Run>>>, text: string) {
    && |rows| == |grid|
    && forall i :: 0 <= i < |rows| ==>
         |rows[i]| == |grid[i]| && forall j :: 0 <= j < |rows[i]| ==>
           grid[i][j] != [] && rows[i][j] == ToCell(grid[i][j], text) && Tight(rows[i][j].text)
  }

  /** Every cell lies below every cell of the rows above. */
  predicate Descends(rows: seq<seq<TableCell>>) {
    forall i, i', j, j' :: 0 <= i < i' < |rows| && 0 <= j < |rows[i]| && 0 <= j' < |rows[i']| ==>
      rows[i'][j'].y < rows[i][j].y
  }

  /** In each column, left edges differ by at most the unit. */
  predicate ColumnsAligned(rows: seq<seq<TableCell>>, columns: nat, unit: real)
    requires Rectangular(rows, columns)
  {
    forall i, i', j :: 0 <= i < |rows| && 0 <= i' < |rows| && 0 <= j < columns ==> rows[i][j].x - rows[i'][j].x <= unit
  }

  lemma DetectedCells(items: seq<Run>, text: string)
    requires Filled(TableCells(items, text))
    ensures MadeOfItsRuns(TableCells(items, text), Grid(items), text)
  {
    var rows, grid := TableCells(items, text), Grid(items);
    forall i, j | 0 <= i < |rows| && 0 <= j < |rows[i]|
      ensures grid[i][j] != [] && rows[i][j] == ToCell(grid[i][j], text) && Tight(rows[i][j].text)
    {
      assert rows[i][j] == CellsOf(grid[i], text)[j];
      CellIsTight(grid[i][j], text);
      assert rows[i][j].text != [];
    }
  }

  lemma DetectedRowsDescend(items: seq<Run>, text: string)
    ensures Descends(TableCells(items, text))
  {
    var rows: seq<seq<TableCell>> := TableCells(items, text);
    forall i: nat, i': nat, j: nat, j': nat | 0 <= i < i' < |rows| && 0 <= j < |rows[i]| && 0 <= j' < |rows[i']|
      ensures rows[i'][j'].y < rows[i][j].y
    {
      RowsDescend(items, text, i, i', j, j');
    }
  }

  lemma RegularColumnsAlign(rows: seq<seq<TableCell>>, unit: real)
    requires Regular(rows, unit)
    ensures ColumnsAligned(rows, |rows[0]|, unit)
  {
    forall i, i', j | 0 <= i < |rows| && 0 <= i' < |rows| && 0 <= j < |rows[0]|
      ensures rows[i][j].x - rows[i'][j].x <= unit
    {
      ColumnIsAligned(rows, unit, j, i, i');
    }
  }

  /**
   * A detected table is a real grid: rectangular, every run in exactly one cell, every cell the tight box of
   * its runs with text in it, rows strictly below one another, columns aligned.
   */
  lemma DetectedTableIsAGrid(items: seq<Run>, text: string)
    requires Table(items, text).Some?
    ensures var rows, grid := Table(items, text).value, Grid(items);
      && |rows| >= MIN_ROWS && |rows[0]| >= MIN_COLUMNS && Rectangular(rows, |rows[0]|)
      && multiset(Flatten(Flatten(grid))) == multiset(items)
      && MadeOfItsRuns(rows, grid, text) && Descends(rows) && ColumnsAligned(rows, |rows[0]|, Unit(items))
  {
    GridKeepsEveryRun(items);
    DetectedCells(items, text);
    DetectedRowsDescend(items, text);
    RegularColumnsAlign(TableCells(items, text), Unit(items));
  }

  /** Whatever the widths: each cell begins more than the gap to the right of where the last run before it ends. */
  lemma GutterBeforeEveryCell(items: seq<Run>, text: string, i: nat, j: nat)
    requires i < |TableCells(items, text)| && 0 < j < |TableCells(items, text)[i]|
    ensures |Grid(items)[i]| == |TableCells(items, text)[i]| && Grid(items)[i][j - 1] != []
    ensures Right(Last(Grid(items)[i][j - 1])) + Unit(items) * CELL_GAP < TableCells(items, text)[i][j].x
  {
    var gap := Unit(items) * CELL_GAP;
    var s := Sort(PageRows(items)[i], Left);
    SortSorts(PageRows(items)[i], Left);
    CutAtGutters(s, gap);
    assert GutterBetween(Cut(s, gap), gap, j - 1);
    LeftOfSortedCell(Cut(s, gap)[j], text);
  }

  /** Without negative widths, left edges also advance along every row by more than the cell gap. */
  lemma DetectedColumnsAdvance(items: seq<Run>, text: string, i: nat, j: nat, k: nat)
    requires NoNegativeWidths(items)
    requires i < |TableCells(items, text)| && j < k < |TableCells(items, text)[i]|
    ensures var rows := TableCells(items, text); rows[i][j].x + Unit(items) * CELL_GAP < rows[i][k].x
  {
    UnitIsPositive(items);
    PageRowsAreBands(items);
    var rows := PageRows(items);
    forall r: Run | r in rows[i]
      ensures r.width >= 0.0
    {
      InFlatten(rows, r);
      assert r in multiset(Flatten(rows));
    }
    LeftEdgesAdvance(rows[i], Unit(items) * CELL_GAP, text, j, k);
  }

  /** Left edges advance by more than the cell gap along every row of the page. */
  predicate ColumnsAdvance(items: seq<Run>, text: string) {
    var rows := TableCells(items, text);
    forall i, j, k :: 0 <= i < |rows| && 0 <= j < k < |rows[i]| ==>
      rows[i][j].x + Unit(items) * CELL_GAP < rows[i][k].x
  }

  /** No run has a negative width other than this one. */
  predicate WidthsOf(items: seq<Run>, width: real) {
    forall r :: r in items ==> r.width >= 0.0 || r.width == width
  }

  /** Two equal runs without height, one gap apart. */
  function GapApart(width: real): seq<Run> {
    [Run(0, 0, 0, 0.0, 0.0, width, 0.0), Run(0, 0, 0, 12.0 * CELL_GAP, 0.0, width, 0.0)]
  }

  lemma GapApartUnit(width: real)
    ensures Unit(GapApart(width)) == 12.0
  {
    var keys := Keys(GapApart(width), Height);
    assert keys == [0.0, 0.0] && keys[1..] == [0.0] && keys[1..][1..] == [];
    assert Positive(keys[1..][1..]) == [] && Positive(keys[1..]) == [] && Positive(keys) == [];
  }

  lemma GapApartRow(width: real)
    ensures PageRows(GapApart(width)) == [GapApart(width)]
  {
    var s := GapApart(width);
    GapApartUnit(width);
    InOrderAlready(s, Down);
    var t := 12.0 * ROW_TOLERANCE;
    assert s[1].y == s[0].y && t > 0.0;
    RowEndIs(s, t, 1, 2);
    assert s[..2] == s && s[2..] == [];
    assert Rows(s, t) == [s] + Rows([], t);
    assert PageRows(s) == Rows(s, t);
  }

  lemma InOrderAlready(s: seq<Run>, key: Run -> real)
    requires |s| == 2 && key(s[0]) <= key(s[1])
    ensures Sort(s, key) == s
  {
    assert s[1..] == [s[1]] && s[1..][1..] == [];
    assert Sort(s[1..], key) == [s[1]];
    assert [s[0]] + [s[1]] == s;
  }

  /** Drawn backwards, the two runs are two cells, exactly the gap apart. */
  lemma GapApartStandsStill(width: real, text: string)
    requires width < 0.0
    ensures !ColumnsAdvance(GapApart(width), text)
  {
    var s, gap := GapApart(width), 12.0 * CELL_GAP;
    GapApartUnit(width);
    GapApartRow(width);
    InOrderAlready(s, Left);
    CellCloses([s[0]], [s[1]], gap);
    CellCloses([s[1]], [], gap);
    assert [s[0]] + [s[1]] == s && [s[1]] + [] == [s[1]];
    assert CellRuns(s, gap) == [[s[0]], [s[1]]];
    var cells := TableCells(s, text)[0];
    assert cells == Cells(s, gap, text);
    LeftOfSortedCell([s[0]], text);
    LeftOfSortedCell([s[1]], text);
    assert !(cells[0].x + gap < cells[1].x);
  }

  /** A width is safe, beside widths that are not negative, exactly if it is not negative itself. */
  lemma ColumnsAdvanceIff(width: real, text: string)
    ensures (forall items :: WidthsOf(items, width) ==> ColumnsAdvance(items, text)) <==> width >= 0.0
  {
    if width >= 0.0 {
      forall items | WidthsOf(items, width)
        ensures ColumnsAdvance(items, text)
      {
        forall i, j, k | 0 <= i < |TableCells(items, text)| && 0 <= j < k < |TableCells(items, text)[i]|
          ensures TableCells(items, text)[i][j].x + Unit(items) * CELL_GAP < TableCells(items, text)[i][k].x
        {
          DetectedColumnsAdvance(items, text, i, j, k);
        }
      }
    } else {
      GapApartStandsStill(width, text);
      assert WidthsOf(GapApart(width), width);
    }
  }

  // ----- Order of arrival -----

  predicate SameRows(a: seq<seq<Run>>, b: seq<seq<Run>>) {
    |a| == |b| && forall i :: 0 <= i < |a| ==> multiset(a[i]) == multiset(b[i])
  }

  lemma RowEndsAgree(a: seq<Run>, b: seq<Run>, tolerance: real, k: nat)
    requires |a| == |b| && 1 <= k <= |a| && forall i :: 0 <= i < |a| ==> a[i].y == b[i].y
    ensures RowEnd(a, tolerance, k) == RowEnd(b, tolerance, k)
    decreases |a| - k
  {}

  lemma {:induction false} SortedRowsAgree(a: seq<Run>, b: seq<Run>, tolerance: real)
    requires Sorted(a, Down) && Sorted(b, Down) && multiset(a) == multiset(b) && tolerance >= 0.0
    ensures SameRows(Rows(a, tolerance), Rows(b, tolerance))
  {
    SortedKeysAgree(a, b, Down);
    if a != [] {
      forall i | 0 <= i < |a|
        ensures a[i].y == b[i].y
      {
        assert Down(a[i]) == Down(b[i]);
      }
      var n := RowEnd(a, tolerance, 1);
      RowEndsAgree(a, b, tolerance, 1);
      RowHead(a, tolerance);
      CutsAgree(a, b, Down, n);
      SortedRest(a, Down, n);
      SortedRest(b, Down, n);
      SortedRowsAgree(a[n..], b[n..], tolerance);
    }
  }

  /** Which runs share a row does not depend on the order they arrive in. */
  lemma RowsForgetOrder(items: seq<Run>, items': seq<Run>, tolerance: real)
    requires multiset(items) == multiset(items') && tolerance >= 0.0
    ensures SameRows(Rows(Sort(items, Down), tolerance), Rows(Sort(items', Down), tolerance))
  {
    SortSorts(items, Down);
    SortSorts(items', Down);
    SortedRowsAgree(Sort(items, Down), Sort(items', Down), tolerance);
  }

  lemma {:induction false} PositiveCounts(values: seq<real>, v: real)
    ensures multiset(Positive(values))[v] == if v > 0.0 then multiset(values)[v] else 0
  {
    if values != [] {
      PositiveCounts(values[1..], v);
      assert values == [values[0]] + values[1..];
    }
  }

  lemma UnitForgetsOrder(items: seq<Run>, items': seq<Run>)
    requires multiset(items) == multiset(items')
    ensures Unit(items) == Unit(items')
  {
    var a, b := Positive(Keys(items, Height)), Positive(Keys(items', Height));
    KeysOfRearrangement(items, items', Height);
    forall v: real
      ensures multiset(a)[v] == multiset(b)[v]
    {
      PositiveCounts(Keys(items, Height), v);
      PositiveCounts(Keys(items', Height), v);
    }
    assert multiset(a) == multiset(b);
    SortSorts(a, Identity);
    SortSorts(b, Identity);
    SortedNumbersAgree(Sort(a, Identity), Sort(b, Identity));
  }

  /** Within each row, runs that start at the same x are the same run. */
  predicate UntiedRows(items: seq<Run>) {
    forall i :: 0 <= i < |PageRows(items)| ==> TiesAreEqual(PageRows(items)[i], Left)
  }

  /** Then the whole detection is independent of the order of arrival. */
  lemma DetectionForgetsOrder(items: seq<Run>, items': seq<Run>, text: string)
    requires multiset(items) == multiset(items') && UntiedRows(items)
    ensures Table(items, text) == Table(items', text)
  {
    UnitIsPositive(items);
    UnitForgetsOrder(items, items');
    var unit := Unit(items);
    RowsForgetOrder(items, items', unit * ROW_TOLERANCE);
    var a, b := PageRows(items), PageRows(items');
    forall i | 0 <= i < |a|
      ensures Cells(a[i], unit * CELL_GAP, text) == Cells(b[i], unit * CELL_GAP, text)
    {
      SortForgetsOrder(a[i], b[i], Left);
    }
    assert TableCells(items, text) == TableCells(items', text);
    assert |multiset(items)| == |items| && |multiset(items')| == |items'|;
  }
}
