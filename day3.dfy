/**
  Day 3 (Gear Ratios): framing the engine schematic with dots, scanning each
  row for maximal digit runs with the symbols around them, summing the part
  numbers (`part_one`) and the gear ratios of the `*` symbols (`part_two`).
 */
module Day3GearRatios {
  import opened Common

  datatype Point = Point(x: int, y: int)

  datatype Symbol = Symbol(position: Point, value: char)

  datatype PartNumber = PartNumber(position: Point, length: int, value: nat, symbols: seq<Symbol>)

  // ----- Python indexing -----

  /** `s[i]`: negative indices count from the end; anything else outside the list raises. */
  function PyIndex<T>(s: seq<T>, i: int): Option<T>
  {
    if 0 <= i < |s| then Some(s[i])
    else if -|s| <= i < 0 then Some(s[|s| + i])
    else None
  }

  /** `engine_schematic[y][x]`. */
  function GridAt(grid: seq<string>, x: int, y: int): Option<char>
  {
    match PyIndex(grid, y)
    case None => None
    case Some(row) => PyIndex(row, x)
  }

  // ----- draw_border -----

  /** `'.' * n`. */
  function Dots(n: nat): (s: string)
    ensures |s| == n && forall i :: 0 <= i < n ==> s[i] == '.'
  {
    seq(n, _ => '.')
  }

  /** The row with a dot added at each end. */
  function Framed(row: string): string
  {
    "." + row + "."
  }

  /**
    The list `draw_border` returns: every row framed, then a row of dots above
    and below as long as the first framed row. An empty schematic raises.
   */
  function Bordered(lines: seq<string>): Option<seq<string>>
  {
    if lines == [] then None
    else
      var rows := seq(|lines|, i requires 0 <= i < |lines| => Framed(lines[i]));
      Some([Dots(|rows[0]|)] + rows + [Dots(|rows[0]|)])
  }

  /** `draw_border`: frames the caller's rows in place and returns them between two rows of dots. */
  method DrawBorder(schematic: array<string>) returns (r: Option<seq<string>>)
    modifies schematic
    ensures forall i :: 0 <= i < schematic.Length ==> schematic[i] == Framed(old(schematic[i]))
    ensures r == Bordered(old(schematic[..]))
  {
    ghost var lines := schematic[..];
    for idx := 0 to schematic.Length
      invariant forall i :: 0 <= i < idx ==> schematic[i] == Framed(lines[i])
      invariant forall i :: idx <= i < schematic.Length ==> schematic[i] == lines[i]
    {
      schematic[idx] := "." + schematic[idx] + ".";
    }
    if schematic.Length == 0 {
      return None;
    }
    var rows := schematic[..];
    assert rows == seq(|lines|, i requires 0 <= i < |lines| => Framed(lines[i]));
    r := Some([Dots(|rows[0]|)] + rows + [Dots(|rows[0]|)]);
  }

  /**
    The bordered grid is two rows taller and, for a rectangular schematic, two
    columns wider; it is framed by dots and holds each original cell one step
    down and to the right.
   */
  lemma BorderedFrame(lines: seq<string>)
    ensures Bordered(lines).None? <==> lines == []
    ensures Bordered(lines).Some? ==>
      var g := Bordered(lines).value;
      |g| == |lines| + 2 &&
      |g[0]| == |lines[0]| + 2 && g[0] == g[|g| - 1] && g[0] == Dots(|g[0]|) &&
      (forall y :: 0 < y < |g| - 1 ==> |g[y]| == |lines[y - 1]| + 2 && g[y][0] == '.' && g[y][|g[y]| - 1] == '.') &&
      (forall y, x :: 0 <= y < |lines| && 0 <= x < |lines[y]| ==> g[y + 1][x + 1] == lines[y][x])
  {
    if lines != [] {
      var g := Bordered(lines).value;
      forall y | 0 < y < |g| - 1
        ensures g[y] == Framed(lines[y - 1])
      {
      }
    }
  }

  // ----- The digit-run scan of parse_input -----

  /**
    The inner `while` loop: from the digit at `numEnd` move right while the
    next cell is a digit; running off the row raises.
   */
  function RunEnd(row: string, numEnd: nat): (r: Option<nat>)
    ensures r.Some? ==> numEnd <= r.value && r.value + 1 < |row|
    ensures r.Some? ==> forall i :: numEnd < i <= r.value ==> IsDigit(row[i])
    decreases |row| - numEnd
  {
    if numEnd + 1 >= |row| then None
    else if IsDigit(row[numEnd + 1]) then RunEnd(row, numEnd + 1)
    else Some(numEnd)
  }

  /** The run found ends just before a non-digit; it raises exactly when the digits reach the end of the row. */
  lemma {:induction false} RunEndMaximal(row: string, numEnd: nat)
    ensures RunEnd(row, numEnd).Some? ==> !IsDigit(row[RunEnd(row, numEnd).value + 1])
    ensures RunEnd(row, numEnd).None? <==> forall i :: numEnd < i < |row| ==> IsDigit(row[i])
    decreases |row| - numEnd
  {
    if numEnd + 1 < |row| && IsDigit(row[numEnd + 1]) {
      RunEndMaximal(row, numEnd + 1);
    }
  }

  /** `[(xx, y) for xx in range(lo, hi + 1)]`. */
  function Span(lo: int, hi: int, y: int): (r: seq<Point>)
    ensures |r| == if hi >= lo then hi - lo + 1 else 0
    decreases hi - lo + 1
  {
    if hi < lo then [] else Span(lo, hi - 1, y) + [Point(hi, y)]
  }

  lemma {:induction false} SpanAt(lo: int, hi: int, y: int)
    ensures forall p :: p in Span(lo, hi, y) <==> lo <= p.x <= hi && p.y == y
    decreases hi - lo + 1
  {
    if hi >= lo {
      SpanAt(lo, hi - 1, y);
    }
  }

  /** `surrounding_indexes`: left, right, then the rows above and below from `x - 1` to `numEnd + 1`. */
  function Surrounding(x: int, numEnd: int, y: int): seq<Point>
  {
    [Point(x - 1, y), Point(numEnd + 1, y)] + Span(x - 1, numEnd + 1, y - 1) + Span(x - 1, numEnd + 1, y + 1)
  }

  /** The neighbourhood of a run of `n` digits has `2 * (n + 2) + 2` cells: every cell touching the run and no cell of it. */
  lemma SurroundingCells(x: int, numEnd: int, y: int)
    requires x <= numEnd
    ensures |Surrounding(x, numEnd, y)| == 2 * ((numEnd - x + 1) + 2) + 2
    ensures forall p :: p in Surrounding(x, numEnd, y) <==>
      x - 1 <= p.x <= numEnd + 1 && y - 1 <= p.y <= y + 1 && !(p.y == y && x <= p.x <= numEnd)
  {
    SpanAt(x - 1, numEnd + 1, y - 1);
    SpanAt(x - 1, numEnd + 1, y + 1);
  }

  /** `surrounding`: the cell at each point, raising if one is outside the grid. */
  function Cells(grid: seq<string>, points: seq<Point>): (r: Option<seq<char>>)
    ensures r.Some? ==> |r.value| == |points|
  {
    if points == [] then Some([])
    else
      match (GridAt(grid, points[0].x, points[0].y), Cells(grid, points[1..]))
      case (Some(c), Some(cs)) => Some([c] + cs)
      case _ => None
  }

  lemma {:induction false} CellsAt(grid: seq<string>, points: seq<Point>)
    requires Cells(grid, points).Some?
    ensures forall i :: 0 <= i < |points| ==> GridAt(grid, points[i].x, points[i].y) == Some(Cells(grid, points).value[i])
  {
    if points != [] {
      CellsAt(grid, points[1..]);
      forall i | 1 <= i < |points|
        ensures GridAt(grid, points[i].x, points[i].y) == Some(Cells(grid, points).value[i])
      {
        assert points[i] == points[1..][i - 1];
      }
    }
  }

  /** `special_symbols`: the surrounding cells that are not `.`, with their positions. */
  function Specials(points: seq<Point>, cells: seq<char>): seq<Symbol>
    requires |points| == |cells|
  {
    if points == [] then []
    else if cells[0] != '.' then [Symbol(points[0], cells[0])] + Specials(points[1..], cells[1..])
    else Specials(points[1..], cells[1..])
  }

  lemma {:induction false} SpecialsExact(points: seq<Point>, cells: seq<char>)
    requires |points| == |cells|
    ensures forall s :: s in Specials(points, cells) <==>
      exists i :: 0 <= i < |points| && points[i] == s.position && cells[i] == s.value && s.value != '.'
  {
    if points != [] {
      SpecialsExact(points[1..], cells[1..]);
      forall s: Symbol ensures (exists i :: 1 <= i < |points| && points[i] == s.position && cells[i] == s.value && s.value != '.') <==>
        (exists i :: 0 <= i < |points| - 1 && points[1..][i] == s.position && cells[1..][i] == s.value && s.value != '.')
      {
        if exists i :: 1 <= i < |points| && points[i] == s.position && cells[i] == s.value && s.value != '.' {
          var i :| 1 <= i < |points| && points[i] == s.position && cells[i] == s.value && s.value != '.';
          assert points[1..][i - 1] == s.position && cells[1..][i - 1] == s.value;
        }
        if exists i :: 0 <= i < |points| - 1 && points[1..][i] == s.position && cells[1..][i] == s.value && s.value != '.' {
          var i :| 0 <= i < |points| - 1 && points[1..][i] == s.position && cells[1..][i] == s.value && s.value != '.';
          assert points[i + 1] == s.position && cells[i + 1] == s.value;
        }
      }
    }
  }

  /** The part number for the digit run from `x` to `numEnd` of row `y`, once its surroundings are read. */
  function Part(grid: seq<string>, x: nat, numEnd: nat, y: nat, cells: seq<char>): PartNumber
    requires y < |grid| && x <= numEnd < |grid[y]| && AllDigits(grid[y][x..numEnd + 1])
    requires |cells| == |Surrounding(x, numEnd, y)|
  {
    PartNumber(Point(x, y), numEnd - x + 1, DecimalValue(grid[y][x..numEnd + 1]), Specials(Surrounding(x, numEnd, y), cells))
  }

  /**
    The `while x < len(engine_schematic[0])` loop over row `y`, from column `x`:
    skip non-digits, read a digit run and its surroundings, resume after the run.
   */
  function ScanRow(grid: seq<string>, y: nat, x: nat): Option<seq<PartNumber>>
    requires 0 < |grid| && y < |grid|
    decreases |grid[0]| - x
  {
    if x >= |grid[0]| then Some([])
    else if x >= |grid[y]| then None
    else if !IsDigit(grid[y][x]) then ScanRow(grid, y, x + 1)
    else
      match RunEnd(grid[y], x)
      case None => None
      case Some(numEnd) =>
        assert AllDigits(grid[y][x..numEnd + 1]);
        match (Cells(grid, Surrounding(x, numEnd, y)), ScanRow(grid, y, numEnd + 1))
        case (Some(cells), Some(rest)) => Some([Part(grid, x, numEnd, y, cells)] + rest)
        case _ => None
  }

  /** The `for y in range(1, len(engine_schematic) - 1)` loop, from row `y` on. */
  function ScanRows(grid: seq<string>, y: nat): Option<seq<PartNumber>>
    requires 0 < |grid|
    decreases |grid| - y
  {
    if y + 1 >= |grid| then Some([])
    else
      match (ScanRow(grid, y, 0), ScanRows(grid, y + 1))
      case (Some(ps), Some(rest)) => Some(ps + rest)
      case _ => None
  }

  /** `parse_input` after the file is read and split into lines. */
  function ParseInput(lines: seq<string>): Option<seq<PartNumber>>
  {
    match Bordered(lines)
    case None => None
    case Some(grid) => ScanRows(grid, 1)
  }

  /**
    What every recorded part number is: a maximal run of digits of its row
    (no digit just before or just after it), its value the run read in
    decimal, and its symbols exactly the cells around the run that are not `.`.
   */
  ghost predicate WellFormedPart(grid: seq<string>, p: PartNumber)
  {
    var x, y, numEnd := p.position.x, p.position.y, p.position.x + p.length - 1;
    0 <= y < |grid| && 0 <= x <= numEnd && numEnd + 1 < |grid[y]| &&
    AllDigits(grid[y][x..numEnd + 1]) && p.value == DecimalValue(grid[y][x..numEnd + 1]) &&
    (x == 0 || !IsDigit(grid[y][x - 1])) && !IsDigit(grid[y][numEnd + 1]) &&
    (forall s :: s in p.symbols <==>
      s.position in Surrounding(x, numEnd, y) && GridAt(grid, s.position.x, s.position.y) == Some(s.value) && s.value != '.')
  }

  /** Recording a run found at `x` with its surroundings read gives a well-formed part number. */
  lemma PartWellFormed(grid: seq<string>, x: nat, numEnd: nat, y: nat, cells: seq<char>)
    requires y < |grid| && x <= numEnd && numEnd + 1 < |grid[y]| && AllDigits(grid[y][x..numEnd + 1])
    requires x == 0 || !IsDigit(grid[y][x - 1])
    requires !IsDigit(grid[y][numEnd + 1])
    requires Cells(grid, Surrounding(x, numEnd, y)) == Some(cells)
    ensures WellFormedPart(grid, Part(grid, x, numEnd, y, cells))
  {
    var points := Surrounding(x, numEnd, y);
    var p := Part(grid, x, numEnd, y, cells);
    CellsAt(grid, points);
    SpecialsExact(points, cells);
    forall s ensures s in p.symbols <==>
      s.position in points && GridAt(grid, s.position.x, s.position.y) == Some(s.value) && s.value != '.'
    {
      if s.position in points && GridAt(grid, s.position.x, s.position.y) == Some(s.value) && s.value != '.' {
        var i :| 0 <= i < |points| && points[i] == s.position;
        assert cells[i] == s.value;
      }
    }
  }

  /** The numbers of a row scanned from column `x`: well formed, in row `y`, from `x` on, left to right without overlap. */
  ghost predicate RowParts(grid: seq<string>, y: int, x: int, ps: seq<PartNumber>)
  {
    InRow(grid, y, x, ps) && LeftToRight(ps)
  }

  ghost predicate InRow(grid: seq<string>, y: int, x: int, ps: seq<PartNumber>)
  {
    forall p :: p in ps ==> WellFormedPart(grid, p) && p.position.y == y && x <= p.position.x
  }

  /** Each number ends before the next one starts, with at least one column between them. */
  predicate LeftToRight(ps: seq<PartNumber>)
  {
    forall i, j :: 0 <= i < j < |ps| ==> ps[i].position.x + ps[i].length < ps[j].position.x
  }

  lemma ConsRowParts(grid: seq<string>, y: int, p: PartNumber, rest: seq<PartNumber>)
    requires WellFormedPart(grid, p) && p.position.y == y
    requires RowParts(grid, y, p.position.x + p.length, rest)
    ensures RowParts(grid, y, p.position.x, [p] + rest)
  {
    StrictlyAfter(grid, y, p, rest);
    ConsInRow(grid, y, p, rest);
    ConsLeftToRight(p, rest);
  }

  lemma StrictlyAfter(grid: seq<string>, y: int, p: PartNumber, rest: seq<PartNumber>)
    requires WellFormedPart(grid, p) && p.position.y == y
    requires InRow(grid, y, p.position.x + p.length, rest)
    ensures forall q :: q in rest ==> p.position.x + p.length < q.position.x
  {
    forall q | q in rest ensures p.position.x + p.length < q.position.x {
      PartStartsWithDigit(grid, q);
      PartEndsBeforeNonDigit(grid, p);
    }
  }

  lemma ConsInRow(grid: seq<string>, y: int, p: PartNumber, rest: seq<PartNumber>)
    requires WellFormedPart(grid, p) && p.position.y == y
    requires InRow(grid, y, p.position.x + p.length, rest)
    ensures InRow(grid, y, p.position.x, [p] + rest)
  {
    forall q | q in [p] + rest ensures WellFormedPart(grid, q) && q.position.y == y && p.position.x <= q.position.x {
      if q != p {
        assert q in rest;
      }
    }
  }

  lemma ConsLeftToRight(p: PartNumber, rest: seq<PartNumber>)
    requires LeftToRight(rest)
    requires forall q :: q in rest ==> p.position.x + p.length < q.position.x
    ensures LeftToRight([p] + rest)
  {
    var ps := [p] + rest;
    forall i, j | 0 <= i < j < |ps| ensures ps[i].position.x + ps[i].length < ps[j].position.x {
      assert ps[j] == rest[j - 1] && ps[j] in rest;
      if i > 0 {
        assert ps[i] == rest[i - 1];
      }
    }
  }

  lemma PartStartsWithDigit(grid: seq<string>, q: PartNumber)
    requires WellFormedPart(grid, q)
    ensures q.position.x < |grid[q.position.y]| && IsDigit(grid[q.position.y][q.position.x])
  {
    var x, y := q.position.x, q.position.y;
    assert grid[y][x..x + q.length][0] == grid[y][x];
  }

  lemma PartEndsBeforeNonDigit(grid: seq<string>, p: PartNumber)
    requires WellFormedPart(grid, p)
    ensures p.position.x + p.length < |grid[p.position.y]| && !IsDigit(grid[p.position.y][p.position.x + p.length])
  {
  }

  /** A scan position the loop can reach: the start of the row, or just after a non-digit or at one. */
  predicate ScanStart(row: string, x: nat)
  {
    x == 0 || x >= |row| || !IsDigit(row[x - 1]) || !IsDigit(row[x])
  }

  /**
    Every number recorded in a row is well formed, lies at or after the column
    the scan started from, and the numbers come left to right without overlap.
   */
  lemma {:induction false} ScanRowWellFormed(grid: seq<string>, y: nat, x: nat)
    requires 0 < |grid| && y < |grid|
    requires ScanStart(grid[y], x)
    requires ScanRow(grid, y, x).Some?
    ensures RowParts(grid, y, x, ScanRow(grid, y, x).value)
    decreases |grid[0]| - x
  {
    if x < |grid[0]| && x < |grid[y]| {
      if !IsDigit(grid[y][x]) {
        ScanRowWellFormed(grid, y, x + 1);
      } else {
        ScanRowWellFormedAtRun(grid, y, x);
      }
    }
  }

  lemma {:induction false} ScanRowWellFormedAtRun(grid: seq<string>, y: nat, x: nat)
    requires 0 < |grid| && y < |grid| && x < |grid[0]| && x < |grid[y]| && IsDigit(grid[y][x])
    requires ScanStart(grid[y], x)
    requires ScanRow(grid, y, x).Some?
    ensures RowParts(grid, y, x, ScanRow(grid, y, x).value)
    decreases |grid[0]| - x, 0
  {
    var numEnd, cells := ScanRowAtRun(grid, y, x);
    RunEndMaximal(grid[y], x);
    ScanRowWellFormed(grid, y, numEnd + 1);
    PartWellFormed(grid, x, numEnd, y, cells);
    ConsRowParts(grid, y, Part(grid, x, numEnd, y, cells), ScanRow(grid, y, numEnd + 1).value);
  }

  /** A successful scan at a digit records the run's part number, then scans on after the run. */
  lemma ScanRowAtRun(grid: seq<string>, y: nat, x: nat) returns (numEnd: nat, cells: seq<char>)
    requires 0 < |grid| && y < |grid| && x < |grid[0]| && x < |grid[y]| && IsDigit(grid[y][x])
    requires ScanRow(grid, y, x).Some?
    ensures RunEnd(grid[y], x) == Some(numEnd) && numEnd + 1 < |grid[y]|
    ensures AllDigits(grid[y][x..numEnd + 1])
    ensures Cells(grid, Surrounding(x, numEnd, y)) == Some(cells) && |cells| == |Surrounding(x, numEnd, y)|
    ensures ScanRow(grid, y, numEnd + 1).Some?
    ensures ScanRow(grid, y, x).value == [Part(grid, x, numEnd, y, cells)] + ScanRow(grid, y, numEnd + 1).value
  {
    numEnd := RunEnd(grid[y], x).value;
    cells := Cells(grid, Surrounding(x, numEnd, y)).value;
    CellsAt(grid, Surrounding(x, numEnd, y));
  }

  /** The scan misses no digit: every digit from column `x` up to the first row's width lies in a recorded number. */
  lemma {:induction false} ScanRowCovers(grid: seq<string>, y: nat, x: nat, col: nat)
    requires 0 < |grid| && y < |grid|
    requires ScanRow(grid, y, x).Some?
    requires x <= col < |grid[0]| && col < |grid[y]| && IsDigit(grid[y][col])
    ensures exists p :: p in ScanRow(grid, y, x).value && p.position.x <= col < p.position.x + p.length
    decreases |grid[0]| - x
  {
    if !IsDigit(grid[y][x]) {
      ScanRowCovers(grid, y, x + 1, col);
    } else {
      var numEnd, cells := ScanRowAtRun(grid, y, x);
      var ps := ScanRow(grid, y, x).value;
      if col <= numEnd {
        assert ps[0] in ps;
      } else {
        ScanRowCovers(grid, y, numEnd + 1, col);
        var p :| p in ScanRow(grid, y, numEnd + 1).value && p.position.x <= col < p.position.x + p.length;
        assert p in ps;
      }
    }
  }

  /** Every number the whole scan records is well formed and lies in one of the rows between the border rows. */
  lemma {:induction false} ScanRowsWellFormed(grid: seq<string>, y: nat)
    requires 0 < |grid| && ScanRows(grid, y).Some?
    ensures forall p :: p in ScanRows(grid, y).value ==> WellFormedPart(grid, p) && y <= p.position.y < |grid| - 1
    decreases |grid| - y
  {
    if y + 1 < |grid| {
      ScanRowsWellFormed(grid, y + 1);
      ScanRowWellFormed(grid, y, 0);
    }
  }

  /** The bordered grid of a rectangular schematic: rows of one width, each starting and ending with `.`. */
  predicate Framing(grid: seq<string>)
  {
    |grid| >= 2 && |grid[0]| >= 2 &&
    (forall y :: 0 <= y < |grid| ==> |grid[y]| == |grid[0]| && grid[y][0] == '.' && grid[y][|grid[0]| - 1] == '.')
  }

  lemma {:induction false} CellsInside(grid: seq<string>, points: seq<Point>)
    requires forall q :: q in points ==> 0 <= q.y < |grid| && 0 <= q.x < |grid[q.y]|
    ensures Cells(grid, points).Some?
  {
    if points != [] {
      assert points[0] in points;
      CellsInside(grid, points[1..]);
    }
  }

  /** On a framed grid a row scan never raises: every run stops at the border and its surroundings lie inside. */
  lemma {:induction false} FramedRowScans(grid: seq<string>, y: nat, x: nat)
    requires Framing(grid) && 0 < y < |grid| - 1
    ensures ScanRow(grid, y, x).Some?
    decreases |grid[0]| - x
  {
    if x < |grid[0]| {
      if !IsDigit(grid[y][x]) {
        FramedRowScans(grid, y, x + 1);
      } else {
        var w := |grid[0]|;
        RunEndMaximal(grid[y], x);
        assert !IsDigit(grid[y][w - 1]);
        var numEnd := RunEnd(grid[y], x).value;
        SurroundingCells(x, numEnd, y);
        assert x >= 1 by {
          assert grid[y][0] == '.';
        }
        CellsInside(grid, Surrounding(x, numEnd, y));
        FramedRowScans(grid, y, numEnd + 1);
      }
    }
  }

  lemma {:induction false} FramedRowsScan(grid: seq<string>, y: nat)
    requires Framing(grid) && 0 < y
    ensures ScanRows(grid, y).Some?
    decreases |grid| - y
  {
    if y + 1 < |grid| {
      FramedRowScans(grid, y, 0);
      FramedRowsScan(grid, y + 1);
    }
  }

  /**
    A rectangular schematic is parsed without raising, and every number found
    is well formed in the bordered grid and lies in a row of the schematic.
   */
  lemma RectangularParses(lines: seq<string>)
    requires lines != [] && forall i :: 0 <= i < |lines| ==> |lines[i]| == |lines[0]|
    ensures ParseInput(lines).Some?
    ensures forall p :: p in ParseInput(lines).value ==>
      WellFormedPart(Bordered(lines).value, p) && 1 <= p.position.y <= |lines|
  {
    var grid := Bordered(lines).value;
    BorderedFrame(lines);
    assert Framing(grid);
    FramedRowsScan(grid, 1);
    ScanRowsWellFormed(grid, 1);
  }

  // ----- Reading the schematic text -----

  predicate Rectangular(lines: seq<string>)
  {
    forall i :: 0 <= i < |lines| ==> |lines[i]| == |lines[0]|
  }

  /** `parse_input` as written: the file's text split at every `"\n"`, then framed and scanned. */
  function ParseText(text: string): Option<seq<PartNumber>>
  {
    ParseInput(Split(text, '\n'))
  }

  /** The lines of a text, without the empty piece a final newline leaves behind. */
  function TextLines(text: string): seq<string>
  {
    var pieces := Split(text, '\n');
    if |pieces| > 1 && pieces[|pieces| - 1] == "" then pieces[..|pieces| - 1] else pieces
  }

  /** `parse_input` as evidently intended: a final newline ends the last line rather than adding an empty one. */
  function ParseTextLines(text: string): Option<seq<PartNumber>>
  {
    ParseInput(TextLines(text))
  }

  lemma {:induction false} ScanRowsRaise(grid: seq<string>, y: nat, bad: nat)
    requires 0 < |grid| && y <= bad < |grid| - 1 && ScanRow(grid, bad, 0).None?
    ensures ScanRows(grid, y).None?
    decreases |grid| - y
  {
    if y < bad {
      ScanRowsRaise(grid, y + 1, bad);
    }
  }

  /**
    A schematic text that ends with a newline, as text files usually do, makes
    the script raise: the empty last piece becomes the row `..`, and the scan
    reads past its end. The same lines without the final newline parse.
   */
  lemma TrailingNewlineRaises(lines: seq<string>)
    requires lines != [] && |lines[0]| >= 1 && Rectangular(lines)
    requires forall i :: 0 <= i < |lines| ==> '\n' !in lines[i]
    ensures ParseText(Join(lines, '\n') + "\n").None?
    ensures ParseText(Join(lines, '\n')).Some?
  {
    var text := Join(lines, '\n');
    SplitJoin(lines, '\n');
    SplitAppendSep(text, '\n');
    assert text + "\n" == text + ['\n'];
    var padded := lines + [""];
    var grid := Bordered(padded).value;
    BorderedFrame(padded);
    var bad := |padded|;
    assert grid[bad] == Framed("");
    assert ScanRow(grid, bad, 2).None?;
    assert ScanRow(grid, bad, 0).None?;
    ScanRowsRaise(grid, 1, bad);
    RectangularParses(lines);
  }

  /** Read as intended, the text parses the same with or without its final newline. */
  lemma TrailingNewlineIgnored(lines: seq<string>)
    requires lines != [] && |lines[0]| >= 1 && Rectangular(lines)
    requires forall i :: 0 <= i < |lines| ==> '\n' !in lines[i]
    ensures ParseTextLines(Join(lines, '\n') + "\n") == ParseTextLines(Join(lines, '\n')) == ParseInput(lines)
    ensures ParseInput(lines).Some?
  {
    TextLinesOfJoin(lines);
    RectangularParses(lines);
  }

  /** Separator-free lines joined with newlines and ended by one are read back. */
  lemma TextLinesOfJoin(lines: seq<string>)
    requires lines != [] && |lines[0]| >= 1 && Rectangular(lines)
    requires forall i :: 0 <= i < |lines| ==> '\n' !in lines[i]
    ensures TextLines(Join(lines, '\n') + "\n") == lines
    ensures TextLines(Join(lines, '\n')) == lines
  {
    var text := Join(lines, '\n');
    TextLinesOfPlainJoin(lines);
    SplitAppendSep(text, '\n');
    assert text + "\n" == text + ['\n'];
    assert (lines + [""])[..|lines|] == lines;
  }

  /** Separator-free lines joined with newlines are read back. */
  lemma TextLinesOfPlainJoin(lines: seq<string>)
    requires lines != [] && |lines[0]| >= 1 && Rectangular(lines)
    requires forall i :: 0 <= i < |lines| ==> '\n' !in lines[i]
    ensures Split(Join(lines, '\n'), '\n') == lines
    ensures TextLines(Join(lines, '\n')) == lines
  {
    SplitJoin(lines, '\n');
    assert |lines[|lines| - 1]| == |lines[0]|;
  }

  // ----- The loops of parse_input -----

  /** `parts` followed by the parts of a scan that may raise. */
  function Prepend(parts: seq<PartNumber>, o: Option<seq<PartNumber>>): Option<seq<PartNumber>>
  {
    match o
    case None => None
    case Some(rest) => Some(parts + rest)
  }

  lemma PrependPrepend(a: seq<PartNumber>, b: seq<PartNumber>, o: Option<seq<PartNumber>>)
    ensures Prepend(a, Prepend(b, o)) == Prepend(a + b, o)
  {
    if o.Some? {
      assert a + (b + o.value) == (a + b) + o.value;
    }
  }

  /** One pass of the row loop at a digit whose run ends at `numEnd`: raise, or record the part and resume after the run. */
  lemma ScanRowStep(grid: seq<string>, y: nat, x: nat, numEnd: nat)
    requires 0 < |grid| && y < |grid| && x < |grid[0]| && x <= numEnd < |grid[y]| && IsDigit(grid[y][x])
    requires RunEnd(grid[y], x) == RunEnd(grid[y], numEnd)
    requires numEnd + 1 >= |grid[y]| || !IsDigit(grid[y][numEnd + 1])
    ensures numEnd + 1 >= |grid[y]| ==> ScanRow(grid, y, x).None?
    ensures numEnd + 1 < |grid[y]| ==> AllDigits(grid[y][x..numEnd + 1])
    ensures numEnd + 1 < |grid[y]| && Cells(grid, Surrounding(x, numEnd, y)).None? ==> ScanRow(grid, y, x).None?
    ensures numEnd + 1 < |grid[y]| && Cells(grid, Surrounding(x, numEnd, y)).Some? ==>
      ScanRow(grid, y, x) == Prepend([Part(grid, x, numEnd, y, Cells(grid, Surrounding(x, numEnd, y)).value)], ScanRow(grid, y, numEnd + 1))
  {
    if numEnd + 1 < |grid[y]| {
      assert RunEnd(grid[y], x) == Some(numEnd);
    }
  }

  /** The `while x < len(engine_schematic[0])` loop over one row, appending to `part_numbers`. */
  method ScanLine(grid: seq<string>, y: nat) returns (r: Option<seq<PartNumber>>)
    requires 0 < |grid| && y < |grid|
    ensures r == ScanRow(grid, y, 0)
  {
    var row := grid[y];
    var parts: seq<PartNumber> := [];
    var x := 0;
    assert ScanRow(grid, y, 0) == Prepend(parts, ScanRow(grid, y, x)) by {
      if ScanRow(grid, y, 0).Some? {
        assert [] + ScanRow(grid, y, 0).value == ScanRow(grid, y, 0).value;
      }
    }
    while x < |grid[0]|
      invariant ScanRow(grid, y, 0) == Prepend(parts, ScanRow(grid, y, x))
      decreases |grid[0]| - x
    {
      if x >= |row| {
        return None;
      }
      if !IsDigit(row[x]) {
        x := x + 1;
      } else {
        var numEnd := x;
        while numEnd + 1 < |row| && IsDigit(row[numEnd + 1])
          invariant x <= numEnd < |row| && RunEnd(row, x) == RunEnd(row, numEnd)
          decreases |row| - numEnd
        {
          numEnd := numEnd + 1;
        }
        ScanRowStep(grid, y, x, numEnd);
        if numEnd + 1 >= |row| {
          return None;
        }
        var cells := Cells(grid, Surrounding(x, numEnd, y));
        if cells.None? {
          return None;
        }
        var part := Part(grid, x, numEnd, y, cells.value);
        PrependPrepend(parts, [part], ScanRow(grid, y, numEnd + 1));
        parts := parts + [part];
        x := numEnd + 1;
      }
    }
    r := Some(parts);
    assert parts + [] == parts;
  }

  /** The `for y in range(1, len(engine_schematic) - 1)` loop. */
  method ParseSchematic(grid: seq<string>) returns (r: Option<seq<PartNumber>>)
    requires 0 < |grid|
    ensures r == ScanRows(grid, 1)
  {
    var parts: seq<PartNumber> := [];
    var y := 1;
    assert ScanRows(grid, 1) == Prepend(parts, ScanRows(grid, y)) by {
      if ScanRows(grid, 1).Some? {
        assert [] + ScanRows(grid, 1).value == ScanRows(grid, 1).value;
      }
    }
    while y + 1 < |grid|
      invariant 1 <= y
      invariant ScanRows(grid, 1) == Prepend(parts, ScanRows(grid, y))
      decreases |grid| - y
    {
      var line := ScanLine(grid, y);
      if line.None? {
        return None;
      }
      PrependPrepend(parts, line.value, ScanRows(grid, y + 1));
      parts := parts + line.value;
      y := y + 1;
    }
    r := Some(parts);
    assert parts + [] == parts;
  }

  // ----- part_one -----

  /** `[part_number.value for part_number in part_numbers if len(part_number.symbols) > 0]`. */
  function CountedValues(parts: seq<PartNumber>): seq<int>
  {
    if parts == [] then []
    else if |parts[0].symbols| > 0 then [parts[0].value as int] + CountedValues(parts[1..])
    else CountedValues(parts[1..])
  }

  function PartOne(parts: seq<PartNumber>): int
  {
    Sum(CountedValues(parts))
  }

  /** Some cell around the run of `p` holds something other than `.`. */
  ghost predicate NextToSymbol(grid: seq<string>, p: PartNumber)
  {
    exists q, c :: q in Surrounding(p.position.x, p.position.x + p.length - 1, p.position.y) &&
      GridAt(grid, q.x, q.y) == Some(c) && c != '.'
  }

  /** A well-formed number is counted exactly when some cell around it is not `.`. */
  lemma CountedIffAdjacentSymbol(grid: seq<string>, p: PartNumber)
    requires WellFormedPart(grid, p)
    ensures |p.symbols| > 0 <==> NextToSymbol(grid, p)
  {
    var around := Surrounding(p.position.x, p.position.x + p.length - 1, p.position.y);
    if |p.symbols| > 0 {
      var s := p.symbols[0];
      assert s in p.symbols;
      assert s.position in around && GridAt(grid, s.position.x, s.position.y) == Some(s.value) && s.value != '.';
    }
    if NextToSymbol(grid, p) {
      var q, c :| q in around && GridAt(grid, q.x, q.y) == Some(c) && c != '.';
      assert Symbol(q, c) in p.symbols;
    }
  }

  /** The part-number sum adds up over any split of the list, counts each number with a symbol once and ignores the others. */
  lemma {:induction false} PartOneAppend(a: seq<PartNumber>, b: seq<PartNumber>)
    ensures PartOne(a + b) == PartOne(a) + PartOne(b)
  {
    if a == [] {
      assert a + b == b;
    } else {
      PartOneAppend(a[1..], b);
      assert (a + b)[1..] == a[1..] + b;
      if |a[0].symbols| > 0 {
        SumAppend([a[0].value as int], CountedValues(a[1..]));
        SumAppend([a[0].value as int], CountedValues(a[1..] + b));
      }
    }
  }

  lemma PartOneSingle(p: PartNumber)
    ensures PartOne([p]) == if |p.symbols| > 0 then p.value else 0
  {
    assert [p][1..] == [];
    assert CountedValues([p]) == if |p.symbols| > 0 then [p.value as int] else [];
    assert [p.value as int][..0] == [];
    assert Sum([p.value as int]) == p.value;
  }

  // ----- part_two -----

  /** One entry of `asterix_adjacent_numbers`: a number's position and value, and the `*` it touches. */
  datatype Link = Link(number: Point, value: nat, star: Point)

  /** The numbers kept per star; Python keys them by the strings `"x_y"` and `"x_y_value"`, which these pairs encode one to one. */
  type Group = set<(Point, nat)>

  /** The links of one number, in the order of its symbols. */
  function StarsOf(p: PartNumber, symbols: seq<Symbol>): (r: seq<Link>)
    ensures forall l :: l in r <==> (l.number == p.position && l.value == p.value &&
      exists s :: s in symbols && s.value == '*' && s.position == l.star)
  {
    if symbols == [] then []
    else if symbols[0].value == '*' then [Link(p.position, p.value, symbols[0].position)] + StarsOf(p, symbols[1..])
    else StarsOf(p, symbols[1..])
  }

  /** `asterix_adjacent_numbers`. */
  function StarLinks(parts: seq<PartNumber>): (r: seq<Link>)
    ensures forall l :: l in r <==> exists p :: p in parts && l in StarsOf(p, p.symbols)
  {
    if parts == [] then [] else StarsOf(parts[0], parts[0].symbols) + StarLinks(parts[1..])
  }

  /** `numbers_for_asterix` after the first links: the stars in first-seen order, and each star's set of numbers. */
  function Grouped(links: seq<Link>): (r: (seq<Point>, map<Point, Group>))
  {
    if links == [] then ([], map[])
    else
      var (keys, groups) := Grouped(links[..|links| - 1]);
      var l := links[|links| - 1];
      if l.star in groups then (keys, groups[l.star := groups[l.star] + {(l.number, l.value)}])
      else (keys + [l.star], groups[l.star := {(l.number, l.value)}])
  }

  /**
    Each star that some link touches is listed once, in the order first seen,
    and holds exactly the numbers of the links that touch it; duplicates collapse.
   */
  lemma {:induction false} GroupedExact(links: seq<Link>)
    ensures forall i, j :: 0 <= i < j < |Grouped(links).0| ==> Grouped(links).0[i] != Grouped(links).0[j]
    ensures forall k :: k in Grouped(links).0 <==> k in Grouped(links).1
    ensures forall k :: k in Grouped(links).1 <==> exists l :: l in links && l.star == k
    ensures forall k :: k in Grouped(links).1 ==>
      forall e :: e in Grouped(links).1[k] <==> exists l :: l in links && l.star == k && e == (l.number, l.value)
  {
    if links != [] {
      var front := links[..|links| - 1];
      var l := links[|links| - 1];
      GroupedExact(front);
      assert links == front + [l];
      forall l' ensures l' in links <==> l' in front || l' == l {
      }
    }
  }

  lemma GroupedKeys(links: seq<Link>)
    ensures forall k :: k in Grouped(links).0 ==> k in Grouped(links).1
  {
    GroupedExact(links);
  }

  /** The gears: the stars with more than one number, in first-seen order. */
  function Gears(keys: seq<Point>, groups: map<Point, Group>): seq<Group>
    requires forall k :: k in keys ==> k in groups
  {
    if keys == [] then []
    else
      var front := Gears(keys[..|keys| - 1], groups);
      var g := groups[keys[|keys| - 1]];
      if |g| > 1 then front + [g] else front
  }

  /** `reduce(lambda x, y: x * y, ...)` over the values of a set of numbers, in whatever order the set yields them. */
  ghost function Product(g: Group): int
  {
    if g == {} then 1 else var e :| e in g; e.1 * Product(g - {e})
  }

  /** The product does not depend on which number the set yields first. */
  lemma ProductAny(g: Group, e: (Point, nat))
    requires e in g
    ensures Product(g) == e.1 * Product(g - {e})
    decreases |g|
  {
    var d :| d in g && Product(g) == d.1 * Product(g - {d});
    if d != e {
      ProductAny(g - {d}, e);
      ProductAny(g - {e}, d);
      assert g - {d} - {e} == g - {e} - {d};
      MulSwap(d.1, e.1, Product(g - {d} - {e}));
    }
  }

  lemma MulAssoc(a: int, b: int, c: int)
    ensures a * (b * c) == (a * b) * c
  {
  }

  lemma MulSwap(a: int, b: int, c: int)
    ensures a * (b * c) == b * (a * c)
  {
  }

  /** A star next to exactly two numbers contributes their product, the gear ratio. */
  lemma GearRatio(a: (Point, nat), b: (Point, nat))
    requires a != b
    ensures Product({a, b}) == a.1 * b.1
  {
    ProductAny({a, b}, a);
    assert {a, b} - {a} == {b};
    ProductAny({b}, b);
    assert {b} - {b} == {};
  }

  ghost function SumProducts(gears: seq<Group>): int
  {
    if gears == [] then 0 else SumProducts(gears[..|gears| - 1]) + Product(gears[|gears| - 1])
  }

  /** The value `part_two` returns. */
  ghost function GearRatioSum(parts: seq<PartNumber>): int
  {
    var (keys, groups) := Grouped(StarLinks(parts));
    GroupedKeys(StarLinks(parts));
    SumProducts(Gears(keys, groups))
  }

  /** The loop filling the `defaultdict(set)`, keyed by star. */
  method GroupByStar(links: seq<Link>) returns (keys: seq<Point>, groups: map<Point, Group>)
    ensures (keys, groups) == Grouped(links)
  {
    keys, groups := [], map[];
    for i := 0 to |links|
      invariant (keys, groups) == Grouped(links[..i])
    {
      var l := links[i];
      assert links[..i + 1][..i] == links[..i];
      if l.star in groups {
        groups := groups[l.star := groups[l.star] + {(l.number, l.value)}];
      } else {
        keys := keys + [l.star];
        groups := groups[l.star := {(l.number, l.value)}];
      }
    }
    assert links[..|links|] == links;
  }

  /** Multiplies the numbers of one gear, taking them from the set one at a time. */
  method ProductOf(g: Group) returns (product: int)
    ensures product == Product(g)
  {
    product := 1;
    var rest := g;
    while rest != {}
      invariant product * Product(rest) == Product(g)
      decreases |rest|
    {
      var e :| e in rest;
      ProductAny(rest, e);
      MulAssoc(product, e.1, Product(rest - {e}));
      product := product * e.1;
      rest := rest - {e};
    }
  }

  /** `part_two`: the sum of the gear ratios. */
  method PartTwo(parts: seq<PartNumber>) returns (gearsSum: int)
    ensures gearsSum == GearRatioSum(parts)
  {
    var keys, groups := GroupByStar(StarLinks(parts));
    GroupedKeys(StarLinks(parts));
    var gears := Gears(keys, groups);
    gearsSum := 0;
    for i := 0 to |gears|
      invariant gearsSum == SumProducts(gears[..i])
    {
      assert gears[..i + 1][..i] == gears[..i];
      var product := ProductOf(gears[i]);
      gearsSum := gearsSum + product;
    }
    assert gears[..|gears|] == gears;
  }
}
