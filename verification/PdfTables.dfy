/** Recovering a grid from positioned runs: `median`, `groupRows`, `toCell`, `toCells`, `detectTable`. */
module PdfTables {
  import opened Prelude
  import opened Strings
  import opened PdfItems
  import opened Sorting

  datatype TableCell = TableCell(text: string, x: real, y: real, width: real, height: real)

  const MIN_ROWS := 3
  const MIN_COLUMNS := 2
  const ROW_TOLERANCE := 0.5
  const CELL_GAP := 0.8

  /** Sorting by `Down` puts the top of the page first. */
  function Down(r: Run): real {
    -r.y
  }

  function Left(r: Run): real {
    r.x
  }

  function Height(r: Run): real {
    r.height
  }

  function Median(values: seq<real>): real {
    var sorted := Sort(values, Identity);
    if sorted == [] then 0.0 else sorted[|sorted| / 2]
  }

  function Positive(values: seq<real>): seq<real> {
    if values == [] then [] else (if values[0] > 0.0 then [values[0]] else []) + Positive(values[1..])
  }

  /** The page's text height: the median of the positive heights, or 12. */
  function Unit(items: seq<Run>): real {
    var m := Median(Positive(Keys(items, Height)));
    if m == 0.0 then 12.0 else m
  }

  // ----- Rows -----

  /** From `k` on, how far the runs stay within the tolerance of the first. */
  function RowEnd(s: seq<Run>, tolerance: real, k: nat): (n: nat)
    requires 1 <= k <= |s|
    ensures k <= n <= |s|
    decreases |s| - k
  {
    if k < |s| && Abs(s[0].y - s[k].y) <= tolerance then RowEnd(s, tolerance, k + 1) else k
  }

  function Rows(s: seq<Run>, tolerance: real): seq<seq<Run>> {
    if s == [] then []
    else
      var n := RowEnd(s, tolerance, 1);
      [s[..n]] + Rows(s[n..], tolerance)
  }

  predicate WithinOfFirst(row: seq<Run>, tolerance: real) {
    forall k :: 0 < k < |row| ==> Abs(row[0].y - row[k].y) <= tolerance
  }

  lemma {:induction false} RowEndIs(s: seq<Run>, tolerance: real, k: nat, n: nat)
    requires 1 <= k <= n <= |s|
    requires forall i :: k <= i < n ==> Abs(s[0].y - s[i].y) <= tolerance
    requires n < |s| ==> Abs(s[0].y - s[n].y) > tolerance
    ensures RowEnd(s, tolerance, k) == n
    decreases n - k
  {
    if k < n {
      RowEndIs(s, tolerance, k + 1, n);
    }
  }

  lemma {:induction false} RowEndStops(s: seq<Run>, tolerance: real, k: nat)
    requires 1 <= k <= |s|
    ensures var n := RowEnd(s, tolerance, k);
      && (forall i :: k <= i < n ==> Abs(s[0].y - s[i].y) <= tolerance)
      && (n < |s| ==> Abs(s[0].y - s[n].y) > tolerance)
    decreases |s| - k
  {
    if k < |s| && Abs(s[0].y - s[k].y) <= tolerance {
      RowEndStops(s, tolerance, k + 1);
    }
  }

  /** The loop of `groupRows`: all rows but the last are closed, `rest` is still to come. */
  ghost predicate Grouping(sorted: seq<Run>, tolerance: real, rows: seq<seq<Run>>, rest: seq<Run>) {
    if rows == [] then rest == sorted
    else
      && Last(rows) != [] && WithinOfFirst(Last(rows), tolerance)
      && Rows(sorted, tolerance) == Front(rows) + Rows(Last(rows) + rest, tolerance)
  }

  lemma JoinsTheRow(sorted: seq<Run>, tolerance: real, rows: seq<seq<Run>>, rest: seq<Run>)
    requires Grouping(sorted, tolerance, rows, rest) && rows != [] && rest != []
    requires Abs(Last(rows)[0].y - rest[0].y) <= tolerance
    ensures Grouping(sorted, tolerance, rows[|rows| - 1 := Last(rows) + [rest[0]]], rest[1..])
  {
    var row := Last(rows);
    var rows' := rows[|rows| - 1 := row + [rest[0]]];
    assert row + rest == (row + [rest[0]]) + rest[1..];
    assert Front(rows') == Front(rows);
  }

  lemma OpensARow(sorted: seq<Run>, tolerance: real, rows: seq<seq<Run>>, rest: seq<Run>)
    requires Grouping(sorted, tolerance, rows, rest) && rest != []
    requires rows != [] ==> Abs(Last(rows)[0].y - rest[0].y) > tolerance
    ensures Grouping(sorted, tolerance, rows + [[rest[0]]], rest[1..])
  {
    assert [rest[0]] + rest[1..] == rest;
    assert Front(rows + [[rest[0]]]) == rows && Last(rows + [[rest[0]]]) == [rest[0]];
    if rows != [] {
      RowCloses(Last(rows), rest, tolerance);
      assert Front(rows) + ([Last(rows)] + Rows(rest, tolerance)) == rows + Rows(rest, tolerance);
    }
  }

  lemma GroupedAll(sorted: seq<Run>, tolerance: real, rows: seq<seq<Run>>)
    requires Grouping(sorted, tolerance, rows, [])
    ensures rows == Rows(sorted, tolerance)
  {
    if rows != [] {
      RowCloses(Last(rows), [], tolerance);
      assert Front(rows) + ([Last(rows)] + []) == rows;
    }
  }

  method GroupRows(items: seq<Run>, tolerance: real) returns (rows: seq<seq<Run>>)
    ensures rows == Rows(Sort(items, Down), tolerance)
  {
    var sorted := Sort(items, Down);
    rows := [];
    for i := 0 to |sorted|
      invariant Grouping(sorted, tolerance, rows, sorted[i..])
    {
      var item := sorted[i];
      if rows != [] && Abs(Last(rows)[0].y - item.y) <= tolerance {
        JoinsTheRow(sorted, tolerance, rows, sorted[i..]);
        rows := rows[|rows| - 1 := Last(rows) + [item]];
      } else {
        OpensARow(sorted, tolerance, rows, sorted[i..]);
        rows := rows + [[item]];
      }
    }
    GroupedAll(sorted, tolerance, rows);
  }

  /** A row that cannot take the next run is complete. */
  lemma RowCloses(row: seq<Run>, rest: seq<Run>, tolerance: real)
    requires row != [] && WithinOfFirst(row, tolerance)
    requires rest != [] ==> Abs(row[0].y - rest[0].y) > tolerance
    ensures Rows(row + rest, tolerance) == [row] + Rows(rest, tolerance)
  {
    RowEndIs(row + rest, tolerance, 1, |row|);
    assert (row + rest)[..|row|] == row && (row + rest)[|row|..] == rest;
  }

  // ----- Cells -----

  predicate Gutter(a: Run, b: Run, gap: real) {
    b.x - (a.x + a.width) > gap
  }

  function CellEnd(s: seq<Run>, gap: real, k: nat): (n: nat)
    requires 1 <= k <= |s|
    ensures k <= n <= |s|
    decreases |s| - k
  {
    if k < |s| && !Gutter(s[k - 1], s[k], gap) then CellEnd(s, gap, k + 1) else k
  }

  /** A left-to-right row, cut at its gutters. */
  function Cut(s: seq<Run>, gap: real): seq<seq<Run>> {
    if s == [] then []
    else
      var n := CellEnd(s, gap, 1);
      [s[..n]] + Cut(s[n..], gap)
  }

  predicate NoGutter(cell: seq<Run>, gap: real) {
    forall k :: 0 < k < |cell| ==> !Gutter(cell[k - 1], cell[k], gap)
  }

  lemma {:induction false} CellEndIs(s: seq<Run>, gap: real, k: nat, n: nat)
    requires 1 <= k <= n <= |s|
    requires forall i :: k <= i < n ==> !Gutter(s[i - 1], s[i], gap)
    requires n < |s| ==> Gutter(s[n - 1], s[n], gap)
    ensures CellEnd(s, gap, k) == n
    decreases n - k
  {
    if k < n {
      CellEndIs(s, gap, k + 1, n);
    }
  }

  lemma {:induction false} CellEndStops(s: seq<Run>, gap: real, k: nat)
    requires 1 <= k <= |s|
    ensures var n := CellEnd(s, gap, k); n < |s| ==> Gutter(s[n - 1], s[n], gap)
    decreases |s| - k
  {
    if k < |s| && !Gutter(s[k - 1], s[k], gap) {
      CellEndStops(s, gap, k + 1);
    }
  }

  lemma CellCloses(cell: seq<Run>, rest: seq<Run>, gap: real)
    requires cell != [] && NoGutter(cell, gap)
    requires rest != [] ==> Gutter(Last(cell), rest[0], gap)
    ensures Cut(cell + rest, gap) == [cell] + Cut(rest, gap)
  {
    var s := cell + rest;
    forall i | 1 <= i < |cell|
      ensures !Gutter(s[i - 1], s[i], gap)
    {
      assert !Gutter(cell[i - 1], cell[i], gap);
    }
    CellEndIs(s, gap, 1, |cell|);
    assert s[..|cell|] == cell && s[|cell|..] == rest;
  }

  function LeastOf(values: seq<real>): real
    requires values != []
  {
    if |values| == 1 then values[0] else Min(values[0], LeastOf(values[1..]))
  }

  function GreatestOf(values: seq<real>): real
    requires values != []
  {
    if |values| == 1 then values[0] else Max(values[0], GreatestOf(values[1..]))
  }

  lemma {:induction false} LeastIsLeast(values: seq<real>)
    requires values != []
    ensures LeastOf(values) in values && forall v :: v in values ==> LeastOf(values) <= v
  {
    if |values| > 1 {
      LeastIsLeast(values[1..]);
      assert forall v :: v in values ==> v == values[0] || v in values[1..];
    }
  }

  lemma {:induction false} GreatestIsGreatest(values: seq<real>)
    requires values != []
    ensures GreatestOf(values) in values && forall v :: v in values ==> v <= GreatestOf(values)
  {
    if |values| > 1 {
      GreatestIsGreatest(values[1..]);
      assert forall v :: v in values ==> v == values[0] || v in values[1..];
    }
  }

  function Bottom(r: Run): real {
    r.y
  }

  function Right(r: Run): real {
    r.x + r.width
  }

  function Top(r: Run): real {
    r.y + r.height
  }

  function Slices(runs: seq<Run>, text: string): (slices: seq<string>)
    ensures |slices| == |runs|
  {
    seq(|runs|, i requires 0 <= i < |runs| => Slice(text, runs[i].start, runs[i].end))
  }

  function ToCell(runs: seq<Run>, text: string): TableCell
    requires runs != []
  {
    var x, y := LeastOf(Keys(runs, Left)), LeastOf(Keys(runs, Bottom));
    TableCell(Trim(Join(Slices(runs, text), " ")), x, y,
              GreatestOf(Keys(runs, Right)) - x, GreatestOf(Keys(runs, Top)) - y)
  }

  lemma {:induction false} CutPieces(s: seq<Run>, gap: real)
    ensures forall i :: 0 <= i < |Cut(s, gap)| ==> Cut(s, gap)[i] != []
    ensures Flatten(Cut(s, gap)) == s
    ensures s != [] ==> Cut(s, gap) != []
  {
    if s != [] {
      var n := CellEnd(s, gap, 1);
      CutPieces(s[n..], gap);
      assert s[..n] + s[n..] == s;
    }
  }

  /** The runs of each cell of a row. */
  function CellRuns(row: seq<Run>, gap: real): (cells: seq<seq<Run>>)
    ensures forall i :: 0 <= i < |cells| ==> cells[i] != []
  {
    CutPieces(Sort(row, Left), gap);
    Cut(Sort(row, Left), gap)
  }

  function CellsOf(runs: seq<seq<Run>>, text: string): (cells: seq<TableCell>)
    requires forall i :: 0 <= i < |runs| ==> runs[i] != []
    ensures |cells| == |runs|
    ensures forall i :: 0 <= i < |cells| ==> cells[i] == ToCell(runs[i], text)
  {
    seq(|runs|, i requires 0 <= i < |runs| => ToCell(runs[i], text))
  }

  function Cells(row: seq<Run>, gap: real, text: string): seq<TableCell> {
    CellsOf(CellRuns(row, gap), text)
  }

  /** The loop of `toCells`: `done` cells are closed, `current` is open, `rest` is still to come. */
  ghost predicate Splitting(sorted: seq<Run>, gap: real, done: seq<seq<Run>>, current: seq<Run>, rest: seq<Run>) {
    && (forall k :: 0 <= k < |done| ==> done[k] != [])
    && NoGutter(current, gap)
    && Cut(sorted, gap) == done + Cut(current + rest, gap)
  }

  lemma CloseCell(sorted: seq<Run>, gap: real, done: seq<seq<Run>>, current: seq<Run>, rest: seq<Run>)
    requires Splitting(sorted, gap, done, current, rest) && current != []
    requires rest != [] ==> Gutter(Last(current), rest[0], gap)
    ensures Splitting(sorted, gap, done + [current], [], rest)
  {
    CellCloses(current, rest, gap);
    assert [] + rest == rest;
    assert done + ([current] + Cut(rest, gap)) == (done + [current]) + Cut(rest, gap);
  }

  lemma ExtendCell(sorted: seq<Run>, gap: real, done: seq<seq<Run>>, current: seq<Run>, rest: seq<Run>)
    requires Splitting(sorted, gap, done, current, rest) && rest != []
    requires current != [] ==> !Gutter(Last(current), rest[0], gap)
    ensures Splitting(sorted, gap, done, current + [rest[0]], rest[1..])
  {
    assert current + rest == (current + [rest[0]]) + rest[1..];
  }

  lemma CellsSnoc(done: seq<seq<Run>>, cell: seq<Run>, text: string)
    requires cell != [] && forall k :: 0 <= k < |done| ==> done[k] != []
    ensures CellsOf(done + [cell], text) == CellsOf(done, text) + [ToCell(cell, text)]
  {}

  /** Closing the open cell writes it behind the closed ones. */
  lemma WriteCell(sorted: seq<Run>, gap: real, done: seq<seq<Run>>, current: seq<Run>, rest: seq<Run>, text: string)
    requires Splitting(sorted, gap, done, current, rest) && current != []
    requires rest != [] ==> Gutter(Last(current), rest[0], gap)
    ensures Splitting(sorted, gap, done + [current], [], rest)
    ensures CellsOf(done + [current], text) == CellsOf(done, text) + [ToCell(current, text)]
  {
    CloseCell(sorted, gap, done, current, rest);
    CellsSnoc(done, current, text);
  }

  lemma NothingOpen(sorted: seq<Run>, gap: real, done: seq<seq<Run>>)
    requires Splitting(sorted, gap, done, [], [])
    ensures Cut(sorted, gap) == done
  {}

  method ToCells(row: seq<Run>, gap: real, text: string) returns (cells: seq<TableCell>)
    ensures cells == Cells(row, gap, text)
  {
    var sorted := Sort(row, Left);
    cells := [];
    var current: seq<Run> := [];
    ghost var done: seq<seq<Run>> := [];
    assert current + sorted[0..] == sorted;
    for i := 0 to |sorted|
      invariant Splitting(sorted, gap, done, current, sorted[i..])
      invariant cells == CellsOf(done, text)
    {
      var item := sorted[i];
      if current != [] && Gutter(Last(current), item, gap) {
        WriteCell(sorted, gap, done, current, sorted[i..], text);
        cells := cells + [ToCell(current, text)];
        done := done + [current];
        current := [];
      }
      ExtendCell(sorted, gap, done, current, sorted[i..]);
      current := current + [item];
    }
    if current != [] {
      WriteCell(sorted, gap, done, current, [], text);
      cells := cells + [ToCell(current, text)];
      done := done + [current];
    }
    NothingOpen(sorted, gap, done);
  }

  // ----- Tables -----

  function PageRows(items: seq<Run>): seq<seq<Run>> {
    Rows(Sort(items, Down), Unit(items) * ROW_TOLERANCE)
  }

  /** The runs of each cell of each row. */
  function GridOf(rows: seq<seq<Run>>, gap: real): (grid: seq<seq<seq<Run>>>)
    ensures |grid| == |rows| && forall i :: 0 <= i < |rows| ==> grid[i] == CellRuns(rows[i], gap)
  {
    seq(|rows|, i requires 0 <= i < |rows| => CellRuns(rows[i], gap))
  }

  function TableCells(items: seq<Run>, text: string): (cells: seq<seq<TableCell>>)
    ensures |cells| == |PageRows(items)|
    ensures forall i :: 0 <= i < |cells| ==> cells[i] == Cells(PageRows(items)[i], Unit(items) * CELL_GAP, text)
  {
    var rows := PageRows(items);
    seq(|rows|, i requires 0 <= i < |rows| => Cells(rows[i], Unit(items) * CELL_GAP, text))
  }

  predicate Rectangular(rows: seq<seq<TableCell>>, columns: nat) {
    forall i :: 0 <= i < |rows| ==> |rows[i]| == columns
  }

  function Lefts(rows: seq<seq<TableCell>>, column: nat): (lefts: seq<real>)
    requires forall i :: 0 <= i < |rows| ==> column < |rows[i]|
    ensures |lefts| == |rows|
  {
    seq(|rows|, i requires 0 <= i < |rows| => rows[i][column].x)
  }

  predicate Aligned(rows: seq<seq<TableCell>>, column: nat, unit: real)
    requires rows != [] && forall i :: 0 <= i < |rows| ==> column < |rows[i]|
  {
    GreatestOf(Lefts(rows, column)) - LeastOf(Lefts(rows, column)) <= unit
  }

  predicate Filled(rows: seq<seq<TableCell>>) {
    forall i, j :: 0 <= i < |rows| && 0 <= j < |rows[i]| ==> rows[i][j].text != []
  }

  predicate Regular(rows: seq<seq<TableCell>>, unit: real) {
    && |rows| >= MIN_ROWS
    && |rows[0]| >= MIN_COLUMNS
    && Rectangular(rows, |rows[0]|)
    && (forall column :: 0 <= column < |rows[0]| ==> Aligned(rows, column, unit))
    && Filled(rows)
  }

  function Table(items: seq<Run>, text: string): Option<seq<seq<TableCell>>> {
    var rows := TableCells(items, text);
    if items != [] && Regular(rows, Unit(items)) then Some(rows) else None
  }

  method SplitIntoCells(items: seq<Run>, text: string, unit: real) returns (rows: seq<seq<TableCell>>)
    requires unit == Unit(items)
    ensures rows == TableCells(items, text)
  {
    var grouped := GroupRows(items, unit * ROW_TOLERANCE);
    rows := [];
    for i := 0 to |grouped|
      invariant rows == TableCells(items, text)[..i]
    {
      var cells := ToCells(grouped[i], unit * CELL_GAP, text);
      rows := rows + [cells];
    }
  }

  method DetectTable(items: seq<Run>, text: string) returns (table: Option<seq<seq<TableCell>>>)
    ensures table == Table(items, text)
  {
    if items == [] {
      return None;
    }
    var unit := Unit(items);
    var rows := SplitIntoCells(items, text, unit);
    if |rows| < MIN_ROWS {
      return None;
    }
    var columnCount := |rows[0]|;
    if columnCount < MIN_COLUMNS {
      return None;
    }
    if exists i :: 0 <= i < |rows| && |rows[i]| != columnCount {
      return None;
    }
    for column := 0 to columnCount
      invariant forall c :: 0 <= c < column ==> Aligned(rows, c, unit)
    {
      var lefts := Lefts(rows, column);
      if GreatestOf(lefts) - LeastOf(lefts) > unit {
        assert !Aligned(rows, column, unit);
        return None;
      }
    }
    if exists i, j :: 0 <= i < |rows| && 0 <= j < |rows[i]| && rows[i][j].text == [] {
      return None;
    }
    return Some(rows);
  }
}
