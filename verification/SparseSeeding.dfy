/** The sparse list of metatiles that a master puts in the queue.

    A geometry is a finite union of boxes: the buffered geometry of a zoom. */
module SparseSeeding {
  import opened Common
  import opened TileRanges
  import opened TileMatrixLimits
  import opened IndexIntervals
  import opened Divisibility

  /** A metatile of one zoom, by its row and column in the matrix of metatiles. */
  datatype MetaCell = MetaCell(zoom: nat, row: int, col: int)

  function ToTileCoord(c: MetaCell, n: nat): TileCoord { TileCoord(c.zoom, c.col * n, c.row * n, n) }

  predicate Less(a: MetaCell, b: MetaCell) { a.row < b.row || (a.row == b.row && a.col < b.col) }

  predicate Increasing(cells: seq<MetaCell>) { forall i, j | 0 <= i < j < |cells| :: Less(cells[i], cells[j]) }

  /** The part of a box in one row of the grid; it is empty when it is not `Ordered`. */
  function RowPart(b: Bbox, grid: Bbox, span: real, row: int): Bbox {
    var bandMaxY := grid.maxY - row as real * span;
    Intersection(b, Bbox(grid.minX, bandMaxY - span, grid.maxX, bandMaxY))
  }

  /** The columns of the part of a box in one row. */
  function PartColumns(b: Bbox, grid: Bbox, span: real, row: int): Option<Interval>
    requires span > 0.0
  {
    var part := RowPart(b, grid, span, row);
    if !Ordered(part) then None
    else BoundsToIndexRange(part.minX, part.maxX, grid.minX, span, LastIndex(grid.maxX - grid.minX, span))
  }

  /** Some box of the geometry has a part in that row whose columns include `col`. */
  ghost predicate InRow(geom: seq<Bbox>, grid: Bbox, span: real, row: int, col: int)
    requires span > 0.0
  {
    exists b | b in geom ::
      PartColumns(b, grid, span, row).Some?
      && PartColumns(b, grid, span, row).value.start <= col <= PartColumns(b, grid, span, row).value.end
  }

  method CollectRowIntervals(geom: seq<Bbox>, grid: Bbox, span: real, row: int) returns (intervals: seq<Interval>)
    requires span > 0.0
    ensures Canonical(intervals)
    ensures forall col :: Covers(intervals, col) <==> InRow(geom, grid, span, row, col)
  {
    var found: seq<Interval> := [];
    for i := 0 to |geom|
      invariant NonEmpty(found)
      invariant forall col :: Covers(found, col) <==> InRow(geom[..i], grid, span, row, col)
    {
      var columns := PartColumns(geom[i], grid, span, row);
      assert geom[..i + 1] == geom[..i] + [geom[i]];
      ghost var before := found;
      if columns.Some? {
        var interval := Interval(columns.value.start, columns.value.end);
        found := found + [interval];
        forall col ensures Covers(found, col) <==> Covers(before, col) || interval.start <= col <= interval.end {
          CoversAppend(before, interval, col);
        }
      }
      forall col
        ensures InRow(geom[..i + 1], grid, span, row, col)
                <==> InRow(geom[..i], grid, span, row, col)
                     || (columns.Some? && columns.value.start <= col <= columns.value.end)
      {
        InRowAppend(geom[..i], geom[i], grid, span, row, col);
      }
    }
    assert geom[..|geom|] == geom;
    intervals := MergeIndexIntervals(found);
    assert forall col :: Covers(intervals, col) <==> Covers(found, col);
  }

  lemma InRowAppend(geom: seq<Bbox>, b: Bbox, grid: Bbox, span: real, row: int, col: int)
    requires span > 0.0
    ensures InRow(geom + [b], grid, span, row, col)
            <==> InRow(geom, grid, span, row, col)
                 || (PartColumns(b, grid, span, row).Some?
                     && PartColumns(b, grid, span, row).value.start <= col <= PartColumns(b, grid, span, row).value.end)
  {
  }

  /** The cells of one row, from left to right. */
  method RowCells(zoom: nat, row: int, intervals: seq<Interval>) returns (cells: seq<MetaCell>)
    requires Canonical(intervals)
    ensures Increasing(cells)
    ensures forall c :: c in cells <==> c.zoom == zoom && c.row == row && Covers(intervals, c.col)
  {
    cells := [];
    for i := 0 to |intervals|
      invariant Increasing(cells)
      invariant forall c :: c in cells <==> c.zoom == zoom && c.row == row && Covers(intervals[..i], c.col)
    {
      var start, end := intervals[i].start, intervals[i].end;
      assert intervals[..i + 1] == intervals[..i] + [intervals[i]];
      forall col ensures Covers(intervals[..i + 1], col) <==> Covers(intervals[..i], col) || start <= col <= end {
        CoversAppend(intervals[..i], intervals[i], col);
      }
      forall col | Covers(intervals[..i], col) ensures col < start { CoveredBefore(intervals, i, col); }
      for x := start to end + 1
        invariant Increasing(cells)
        invariant forall c :: c in cells <==>
                    c.zoom == zoom && c.row == row && (Covers(intervals[..i], c.col) || start <= c.col < x)
      {
        cells := cells + [MetaCell(zoom, row, x)];
      }
    }
    assert intervals[..|intervals|] == intervals;
  }

  lemma CoveredBefore(intervals: seq<Interval>, i: nat, col: int)
    requires Canonical(intervals) && i < |intervals| && Covers(intervals[..i], col)
    ensures col < intervals[i].start
  {
    var k :| 0 <= k < i && intervals[..i][k].start <= col <= intervals[..i][k].end;
    assert intervals[k].end + 1 < intervals[i].start;
  }

  function LowestY(geom: seq<Bbox>): (y: real)
    requires geom != []
    ensures forall b | b in geom :: y <= b.minY
    ensures exists b | b in geom :: y == b.minY
  {
    if |geom| == 1 then geom[0].minY else MinReal(geom[0].minY, LowestY(geom[1..]))
  }

  function HighestY(geom: seq<Bbox>): (y: real)
    requires geom != []
    ensures forall b | b in geom :: b.maxY <= y
    ensures exists b | b in geom :: y == b.maxY
  {
    if |geom| == 1 then geom[0].maxY else MaxReal(geom[0].maxY, HighestY(geom[1..]))
  }

  /** The rows between the lowest and the highest point of the geometry. */
  function RowRange(geom: seq<Bbox>, grid: Bbox, span: real): Option<Interval>
    requires span > 0.0 && geom != []
  {
    YBoundsToIndexRange(LowestY(geom), HighestY(geom), grid.maxY, span, LastIndex(grid.maxY - grid.minY, span))
  }

  ghost predicate Seeded(geom: seq<Bbox>, grid: Bbox, span: real, row: int, col: int)
    requires span > 0.0 && geom != []
  {
    var rows := RowRange(geom, grid, span);
    rows.Some? && rows.value.start <= row <= rows.value.end && InRow(geom, grid, span, row, col)
  }

  /** The cells of one zoom, row by row. */
  method ZoomCells(zoom: nat, geom: seq<Bbox>, grid: Bbox, span: real) returns (cells: seq<MetaCell>)
    requires span > 0.0 && geom != []
    ensures Increasing(cells)
    ensures forall c :: c in cells <==> c.zoom == zoom && Seeded(geom, grid, span, c.row, c.col)
  {
    cells := [];
    var rows := RowRange(geom, grid, span);
    if rows.None? {
      return;
    }
    for row := rows.value.start to rows.value.end + 1
      invariant Increasing(cells)
      invariant forall c :: c in cells <==>
                  c.zoom == zoom && rows.value.start <= c.row < row && InRow(geom, grid, span, c.row, c.col)
    {
      var intervals := CollectRowIntervals(geom, grid, span, row);
      var rowCells := RowCells(zoom, row, intervals);
      forall i, j | 0 <= i < |cells| && 0 <= j < |rowCells| ensures Less(cells[i], rowCells[j]) {
        assert cells[i] in cells && rowCells[j] in rowCells;
      }
      cells := cells + rowCells;
    }
  }

  // ----- What is seeded, geometrically -----

  lemma NextRowSpan(row: int, span: real)
    ensures (row + 1) as real * span == row as real * span + span
  {
    assert (row + 1) as real == row as real + 1.0;
  }

  /** The columns of bounds inside an extent are cells that the bounds touch. */
  lemma ColumnTouches(lo: real, hi: real, extent: real, span: real, col: int)
    requires span > 0.0 && 0.0 <= lo <= hi <= extent
    requires var last := LastIndex(extent, span);
      Clamp(Floor(lo / span), last) <= col <= Clamp(Ceil(hi / span) - 1, last)
    ensures Touches(lo, hi, span, col)
  {
    var first, end, last := Floor(lo / span), Ceil(hi / span) - 1, LastIndex(extent, span);
    FloorExact(lo, span, 0);
    ClampCases(first, end, last, col);
    LeftTouches(hi, span, col);
    RightTouches(lo, extent, span, col);
  }

  /** An index in a clamped range lies in the range, or at the end that was clamped. */
  lemma ClampCases(first: int, end: int, last: int, col: int)
    requires first >= 0 && Clamp(first, last) <= col <= Clamp(end, last)
    ensures col == 0 || col <= end
    ensures first <= col || last <= col
  {
  }

  /** A cell that starts before the end of the bounds, or at 0, begins before their end. */
  lemma LeftTouches(hi: real, span: real, col: int)
    requires span > 0.0 && hi >= 0.0 && (col == 0 || col <= Ceil(hi / span) - 1)
    ensures col as real * span <= hi
  {
    if col == 0 {
      assert 0 as real * span == 0.0;
    } else {
      CeilExact(hi, span, col);
    }
  }

  /** A cell at or behind the first one, or the last one, ends behind the start of the bounds. */
  lemma RightTouches(lo: real, extent: real, span: real, col: int)
    requires span > 0.0 && lo <= extent && (Floor(lo / span) <= col || LastIndex(extent, span) <= col)
    ensures lo <= (col + 1) as real * span
  {
    if Floor(lo / span) <= col {
      FloorExact(lo, span, col + 1);
    } else {
      var last := LastIndex(extent, span);
      CeilExact(extent, span, last + 1);
      ScaleOrder((last + 1) as real, (col + 1) as real, span);
    }
  }

  lemma CellTouches(b: Bbox, grid: Bbox, span: real, row: int, col: int)
    requires span > 0.0 && Ordered(b)
    requires Touches(b.minX - grid.minX, b.maxX - grid.minX, span, col)
    requires Touches(grid.maxY - b.maxY, grid.maxY - b.minY, span, row)
    ensures Ordered(Intersection(Cell(grid, span, row, col), b))
  {
    CellSides(span, col);
    CellSides(span, row);
    FrameTouches(b, grid, col as real * span, (col + 1) as real * span, row as real * span, (row + 1) as real * span);
  }

  lemma RowPartTouches(b: Bbox, grid: Bbox, span: real, row: int)
    requires span > 0.0 && Ordered(RowPart(b, grid, span, row))
    ensures Touches(grid.maxY - b.maxY, grid.maxY - b.minY, span, row) && Ordered(b)
    ensures var part := RowPart(b, grid, span, row);
      grid.minX <= part.minX <= part.maxX <= grid.maxX && b.minX <= part.minX && part.maxX <= b.maxX
  {
    NextRowSpan(row, span);
  }

  /** Only metatiles that touch the geometry are seeded. */
  lemma SeededTouches(geom: seq<Bbox>, grid: Bbox, span: real, row: int, col: int)
    requires span > 0.0 && geom != [] && Seeded(geom, grid, span, row, col)
    ensures exists b | b in geom :: Ordered(Intersection(Cell(grid, span, row, col), b))
  {
    var b :| b in geom && PartColumns(b, grid, span, row).Some?
             && PartColumns(b, grid, span, row).value.start <= col <= PartColumns(b, grid, span, row).value.end;
    PartTouches(b, grid, span, row, col);
  }

  lemma PartTouches(b: Bbox, grid: Bbox, span: real, row: int, col: int)
    requires span > 0.0 && PartColumns(b, grid, span, row).Some?
    requires PartColumns(b, grid, span, row).value.start <= col <= PartColumns(b, grid, span, row).value.end
    ensures Ordered(Intersection(Cell(grid, span, row, col), b))
  {
    var part := RowPart(b, grid, span, row);
    RowPartTouches(b, grid, span, row);
    ColumnTouches(part.minX - grid.minX, part.maxX - grid.minX, grid.maxX - grid.minX, span, col);
    CellTouches(b, grid, span, row, col);
  }

  /** The part of a box between the left and the right side of the grid. */
  function ClipX(b: Bbox, grid: Bbox): Bbox {
    Bbox(MaxReal(b.minX, grid.minX), b.minY, MinReal(b.maxX, grid.maxX), b.maxY)
  }

  predicate InMatrix(grid: Bbox, span: real, row: int, col: int)
    requires span > 0.0
  {
    0 <= row <= LastIndex(grid.maxY - grid.minY, span) && 0 <= col <= LastIndex(grid.maxX - grid.minX, span)
  }

  lemma RowSeeded(geom: seq<Bbox>, grid: Bbox, span: real, row: int, b: Bbox)
    requires span > 0.0 && b in geom && 0 <= row <= LastIndex(grid.maxY - grid.minY, span)
    requires b.minY <= b.maxY && Overlaps(grid.maxY - b.maxY, grid.maxY - b.minY, span, row)
    ensures var rows := RowRange(geom, grid, span);
      rows.Some? && rows.value.start <= row <= rows.value.end
  {
    var low, high := LowestY(geom), HighestY(geom);
    assert low <= b.minY && b.maxY <= high;
    WiderOverlaps(grid.maxY - b.maxY, grid.maxY - b.minY, grid.maxY - high, grid.maxY - low, span, row);
    InYRange(low, high, grid.maxY, span, LastIndex(grid.maxY - grid.minY, span), row);
  }

  lemma PartHasArea(a: Bbox, b: Bbox)
    requires HasArea(Intersection(a, b))
    ensures HasArea(b)
  {
  }

  lemma RowPartOfClip(b: Bbox, grid: Bbox, span: real, row: int)
    requires span > 0.0 && HasArea(ClipX(b, grid)) && Overlaps(grid.maxY - b.maxY, grid.maxY - b.minY, span, row)
    ensures var part := RowPart(b, grid, span, row);
      Ordered(part) && part.minX == ClipX(b, grid).minX && part.maxX == ClipX(b, grid).maxX
  {
    NextRowSpan(row, span);
  }

  /** Every metatile of the matrix that shares an area with the geometry, between
      the sides of the grid, is seeded. */
  lemma OverlappedSeeded(geom: seq<Bbox>, grid: Bbox, span: real, row: int, col: int, b: Bbox)
    requires span > 0.0 && b in geom && InMatrix(grid, span, row, col)
    requires HasArea(Intersection(Cell(grid, span, row, col), ClipX(b, grid)))
    ensures Seeded(geom, grid, span, row, col)
  {
    var clip := ClipX(b, grid);
    PartHasArea(Cell(grid, span, row, col), clip);
    CellOverlaps(clip, grid, span, row, col);
    RowSeeded(geom, grid, span, row, b);
    RowPartOfClip(b, grid, span, row);
    InXRange(clip.minX, clip.maxX, grid.minX, span, LastIndex(grid.maxX - grid.minX, span), col);
    assert InRow(geom, grid, span, row, col);
  }

  /** The last column of metatiles ends at the right side of the grid. */
  predicate FitsGrid(grid: Bbox, span: real)
    requires span > 0.0
  {
    (LastIndex(grid.maxX - grid.minX, span) + 1) as real * span == grid.maxX - grid.minX
  }

  /** Every metatile of the matrix that shares an area with the geometry, anywhere. */
  ghost predicate SeedsEverything(grid: Bbox, span: real)
    requires span > 0.0
  {
    forall geom: seq<Bbox>, b: Bbox, row: int, col: int ::
      b in geom && InMatrix(grid, span, row, col) && HasArea(Intersection(Cell(grid, span, row, col), b))
      ==> Seeded(geom, grid, span, row, col)
  }

  /** A box beyond the right side of the grid is never seeded. */
  lemma BeyondNotSeeded(grid: Bbox, span: real, row: int, col: int, b: Bbox)
    requires span > 0.0 && grid.maxX < b.minX
    ensures !Seeded([b], grid, span, row, col)
  {
    assert PartColumns(b, grid, span, row).None?;
  }

  lemma ClipOverlaps(b: Bbox, grid: Bbox, l: real, r: real)
    requires HasArea(b) && 0.0 <= l < r <= grid.maxX - grid.minX
    requires l < b.maxX - grid.minX && b.minX - grid.minX < r
    ensures var clip := ClipX(b, grid);
      HasArea(clip) && l < clip.maxX - grid.minX && clip.minX - grid.minX < r
  {
  }

  lemma InsideLastColumn(grid: Bbox, span: real, row: int, col: int, b: Bbox)
    requires span > 0.0 && FitsGrid(grid, span) && InMatrix(grid, span, row, col)
    requires HasArea(Intersection(Cell(grid, span, row, col), b))
    ensures HasArea(Intersection(Cell(grid, span, row, col), ClipX(b, grid)))
  {
    PartHasArea(Cell(grid, span, row, col), b);
    CellOverlaps(b, grid, span, row, col);
    ColumnInside(grid, span, col);
    ClipOverlaps(b, grid, col as real * span, (col + 1) as real * span);
    CellOverlaps(ClipX(b, grid), grid, span, row, col);
  }

  lemma ColumnInside(grid: Bbox, span: real, col: int)
    requires span > 0.0 && FitsGrid(grid, span) && 0 <= col <= LastIndex(grid.maxX - grid.minX, span)
    ensures 0.0 <= col as real * span < (col + 1) as real * span <= grid.maxX - grid.minX
  {
    ScaleOrder((col + 1) as real, (LastIndex(grid.maxX - grid.minX, span) + 1) as real, span);
    ScaleOrder(0.0, col as real, span);
    ScaleOrder(col as real, (col + 1) as real, span);
  }

  lemma FittingSeedsEverything(grid: Bbox, span: real)
    requires span > 0.0 && FitsGrid(grid, span)
    ensures SeedsEverything(grid, span)
  {
    forall geom: seq<Bbox>, b: Bbox, row: int, col: int
      | b in geom && InMatrix(grid, span, row, col) && HasArea(Intersection(Cell(grid, span, row, col), b))
      ensures Seeded(geom, grid, span, row, col)
    {
      InsideLastColumn(grid, span, row, col, b);
      OverlappedSeeded(geom, grid, span, row, col, b);
    }
  }

  /** A box beyond the right side of the grid, in a frame that reaches beyond it. */
  function BeyondBox(grid: Bbox, right: real, bottom: real): Bbox {
    var gap := right - (grid.maxX - grid.minX);
    Bbox(grid.maxX + gap / 4.0, grid.maxY - bottom, grid.maxX + gap / 2.0, grid.maxY)
  }

  lemma BeyondInFrame(grid: Bbox, left: real, right: real, bottom: real)
    requires left <= grid.maxX - grid.minX < right && 0.0 < bottom
    ensures var b := BeyondBox(grid, right, bottom);
      grid.maxX < b.minX && HasArea(Intersection(Frame(grid, left, right, 0.0, bottom), b))
  {
  }

  /** The last column starts inside the extent and ends at its side or beyond. */
  lemma LastColumn(extent: real, span: real)
    requires span > 0.0 && extent > 0.0
    ensures var last := LastIndex(extent, span);
      0 <= last && last as real * span < extent <= (last + 1) as real * span
  {
    var last := LastIndex(extent, span);
    CeilExact(extent, span, last + 1);
    CeilExact(extent, span, 0);
    CeilExact(extent, span, last);
  }

  /** The last column of the first row, when it does not fit the grid, has a box with
      an area that is not seeded. */
  lemma LastColumnMissed(grid: Bbox, span: real)
    requires span > 0.0 && HasArea(grid) && !FitsGrid(grid, span)
    ensures !SeedsEverything(grid, span)
  {
    var last := LastIndex(grid.maxX - grid.minX, span);
    var left, right := last as real * span, (last + 1) as real * span;
    LastColumn(grid.maxX - grid.minX, span);
    LastColumn(grid.maxY - grid.minY, span);
    BeyondInFrame(grid, left, right, span);
    var b := BeyondBox(grid, right, span);
    BeyondNotSeeded(grid, span, 0, last, b);
    FirstRow(grid, span, last);
    assert b in [b] && InMatrix(grid, span, 0, last) && !Seeded([b], grid, span, 0, last);
  }

  lemma FirstRow(grid: Bbox, span: real, col: int)
    ensures Cell(grid, span, 0, col) == Frame(grid, col as real * span, (col + 1) as real * span, 0.0, span)
  {
  }

  /** Geometry between the right side of the grid and the end of the last column is
      missed, so nothing is missed exactly when the last column fits the grid. */
  lemma SeedsEverythingExact(grid: Bbox, span: real)
    requires span > 0.0 && HasArea(grid)
    ensures SeedsEverything(grid, span) <==> FitsGrid(grid, span)
  {
    if FitsGrid(grid, span) {
      FittingSeedsEverything(grid, span);
    } else {
      LastColumnMissed(grid, span);
    }
  }

  // ----- All zooms -----

  /** The configuration of one seeding. `geoms` has the buffered geometry of a zoom. */
  datatype Pyramid = Pyramid(
    gridBbox: Bbox,
    tileSize: real,
    zooms: seq<nat>,
    resolutions: seq<real>,
    geoms: map<nat, seq<Bbox>>)

  ghost predicate ValidPyramid(p: Pyramid, n: nat) {
    && p.tileSize > 0.0 && n > 0
    && (forall i, j | 0 <= i < j < |p.zooms| :: p.zooms[i] != p.zooms[j])
    && (forall z | z in p.geoms :: z < |p.resolutions| && p.resolutions[z] > 0.0)
  }

  function Span(p: Pyramid, zoom: nat, n: nat): real
    requires zoom < |p.resolutions|
  {
    n as real * (p.tileSize * p.resolutions[zoom])
  }

  lemma SpanPositive(p: Pyramid, zoom: nat, n: nat)
    requires ValidPyramid(p, n) && zoom in p.geoms
    ensures zoom < |p.resolutions| && Span(p, zoom, n) > 0.0
  {
    ScaleOrder(0.0, p.tileSize, p.resolutions[zoom]);
    ScaleOrder(0.0, n as real, p.tileSize * p.resolutions[zoom]);
  }

  /** `c` is seeded at its zoom. */
  ghost predicate SeededAt(p: Pyramid, n: nat, c: MetaCell)
    requires ValidPyramid(p, n)
  {
    c.zoom in p.geoms && p.geoms[c.zoom] != []
    && (SpanPositive(p, c.zoom, n);
        Seeded(p.geoms[c.zoom], NormalizeBbox(p.gridBbox), Span(p, c.zoom, n), c.row, c.col))
  }

  /** The metatiles of one zoom. */
  method CellsAt(p: Pyramid, n: nat, zoom: nat) returns (cells: seq<MetaCell>)
    requires ValidPyramid(p, n)
    ensures Increasing(cells)
    ensures forall c :: c in cells <==> c.zoom == zoom && SeededAt(p, n, c)
  {
    if zoom !in p.geoms || p.geoms[zoom] == [] {
      return [];
    }
    SpanPositive(p, zoom, n);
    cells := ZoomCells(zoom, p.geoms[zoom], NormalizeBbox(p.gridBbox), Span(p, zoom, n));
  }

  /** `c` is the metatile of a seeded cell. */
  ghost predicate SeededTile(p: Pyramid, n: nat, c: TileCoord)
    requires ValidPyramid(p, n)
  {
    exists cell: MetaCell :: cell.zoom in p.zooms && SeededAt(p, n, cell) && c == ToTileCoord(cell, n)
  }

  // ----- The metatiles of all zooms, geometrically -----

  /** The box from column `c.x` to `c.x + n` and from row `c.y` to `c.y + n` of the tiles of
      its zoom. */
  ghost function MetatileBox(p: Pyramid, n: nat, c: TileCoord): Bbox
    requires 0 <= c.z < |p.resolutions|
  {
    var tileSpan := p.tileSize * p.resolutions[c.z];
    Frame(NormalizeBbox(p.gridBbox), c.x as real * tileSpan, (c.x + n) as real * tileSpan,
          c.y as real * tileSpan, (c.y + n) as real * tileSpan)
  }

  /** The left and the top side of `c` are in the extent of the grid. */
  predicate BeginsInExtent(grid: Bbox, tileSpan: real, c: TileCoord) {
    && 0 <= c.x && c.x as real * tileSpan < grid.maxX - grid.minX
    && 0 <= c.y && c.y as real * tileSpan < grid.maxY - grid.minY
  }

  /** `c` is a metatile of side `n` of a zoom with a geometry, and begins in the grid. */
  ghost predicate BeginsInGrid(p: Pyramid, n: nat, c: TileCoord)
    requires ValidPyramid(p, n)
  {
    && c.n == n && c.z in p.zooms && c.z in p.geoms && c.x % n == 0 && c.y % n == 0
    && BeginsInExtent(NormalizeBbox(p.gridBbox), p.tileSize * p.resolutions[c.z], c)
  }

  /** The box of cell (row, col) in spans of n tiles is the box of the metatile. */
  lemma CellIsMetatile(p: Pyramid, n: nat, c: TileCoord, row: int, col: int)
    requires 0 <= c.z < |p.resolutions| && c.x == col * n && c.y == row * n
    ensures MetatileBox(p, n, c) == Cell(NormalizeBbox(p.gridBbox), Span(p, c.z, n), row, col)
    ensures col as real * Span(p, c.z, n) == c.x as real * (p.tileSize * p.resolutions[c.z])
    ensures row as real * Span(p, c.z, n) == c.y as real * (p.tileSize * p.resolutions[c.z])
  {
    var tileSpan := p.tileSize * p.resolutions[c.z];
    ScaledCell(col, n, tileSpan);
    ScaledCell(col + 1, n, tileSpan);
    ScaledCell(row, n, tileSpan);
    ScaledCell(row + 1, n, tileSpan);
    assert (col + 1) * n == c.x + n && (row + 1) * n == c.y + n;
  }

  /** An index is in the matrix exactly when its cell begins in the extent. */
  lemma BeginsInside(extent: real, span: real, k: int)
    requires span > 0.0
    ensures k <= LastIndex(extent, span) <==> k as real * span < extent
  {
    CeilExact(extent, span, k);
  }

  /** A seeded cell is one of the matrix. */
  lemma SeededInMatrix(geom: seq<Bbox>, grid: Bbox, span: real, row: int, col: int)
    requires span > 0.0 && geom != [] && HasArea(grid) && Seeded(geom, grid, span, row, col)
    ensures InMatrix(grid, span, row, col)
  {
    LastColumn(grid.maxX - grid.minX, span);
    LastColumn(grid.maxY - grid.minY, span);
  }

  lemma SeededCellTouches(p: Pyramid, n: nat, cell: MetaCell)
    requires ValidPyramid(p, n) && SeededAt(p, n, cell)
    ensures exists b | b in p.geoms[cell.zoom] :: Ordered(Intersection(MetatileBox(p, n, ToTileCoord(cell, n)), b))
  {
    SpanPositive(p, cell.zoom, n);
    SeededTouches(p.geoms[cell.zoom], NormalizeBbox(p.gridBbox), Span(p, cell.zoom, n), cell.row, cell.col);
    CellIsMetatile(p, n, ToTileCoord(cell, n), cell.row, cell.col);
  }

  lemma CellBegins(grid: Bbox, span: real, tileSpan: real, n: nat, c: TileCoord, row: int, col: int)
    requires span > 0.0 && span == n as real * tileSpan && InMatrix(grid, span, row, col)
    requires c.x == col * n && c.y == row * n
    ensures BeginsInExtent(grid, tileSpan, c)
  {
    BeginsInside(grid.maxX - grid.minX, span, col);
    BeginsInside(grid.maxY - grid.minY, span, row);
    ScaledCell(col, n, tileSpan);
    ScaledCell(row, n, tileSpan);
    MulOrder(0, col, n);
    MulOrder(0, row, n);
  }

  lemma Aligned(x: int, k: int, n: nat)
    requires n > 0 && x == k * n
    ensures x % n == 0
  {
    DivUnique(x, n, k, 0);
  }

  lemma MatrixCellBegins(p: Pyramid, n: nat, c: TileCoord, row: int, col: int)
    requires ValidPyramid(p, n) && c.z in p.zooms && c.z in p.geoms && c == ToTileCoord(MetaCell(c.z, row, col), n)
    requires Span(p, c.z, n) > 0.0 && InMatrix(NormalizeBbox(p.gridBbox), Span(p, c.z, n), row, col)
    ensures BeginsInGrid(p, n, c)
  {
    CellBegins(NormalizeBbox(p.gridBbox), Span(p, c.z, n), p.tileSize * p.resolutions[c.z], n, c, row, col);
    Aligned(c.x, col, n);
    Aligned(c.y, row, n);
  }

  lemma SeededAtInMatrix(p: Pyramid, n: nat, cell: MetaCell)
    requires ValidPyramid(p, n) && SeededAt(p, n, cell) && HasArea(NormalizeBbox(p.gridBbox))
    ensures Span(p, cell.zoom, n) > 0.0
    ensures InMatrix(NormalizeBbox(p.gridBbox), Span(p, cell.zoom, n), cell.row, cell.col)
  {
    SpanPositive(p, cell.zoom, n);
    SeededInMatrix(p.geoms[cell.zoom], NormalizeBbox(p.gridBbox), Span(p, cell.zoom, n), cell.row, cell.col);
  }

  /** Every seeded metatile begins in the grid and touches the geometry of its zoom. */
  lemma SeededTileTouches(p: Pyramid, n: nat, c: TileCoord)
    requires ValidPyramid(p, n) && SeededTile(p, n, c)
    ensures HasArea(NormalizeBbox(p.gridBbox)) ==> BeginsInGrid(p, n, c)
    ensures c.n == n && c.z in p.zooms && c.z in p.geoms
    ensures exists b | b in p.geoms[c.z] :: Ordered(Intersection(MetatileBox(p, n, c), b))
  {
    var cell: MetaCell :| cell.zoom in p.zooms && SeededAt(p, n, cell) && c == ToTileCoord(cell, n);
    SeededCellTouches(p, n, cell);
    if HasArea(NormalizeBbox(p.gridBbox)) {
      SeededAtInMatrix(p, n, cell);
      MatrixCellBegins(p, n, c, cell.row, cell.col);
    }
  }

  lemma CellInMatrix(p: Pyramid, n: nat, c: TileCoord, row: int, col: int)
    requires ValidPyramid(p, n) && c.z in p.geoms && c.x == col * n && c.y == row * n && row >= 0 && col >= 0
    requires BeginsInExtent(NormalizeBbox(p.gridBbox), p.tileSize * p.resolutions[c.z], c)
    ensures Span(p, c.z, n) > 0.0 && InMatrix(NormalizeBbox(p.gridBbox), Span(p, c.z, n), row, col)
  {
    var grid, span := NormalizeBbox(p.gridBbox), Span(p, c.z, n);
    SpanPositive(p, c.z, n);
    CellIsMetatile(p, n, c, row, col);
    BeginsInside(grid.maxX - grid.minX, span, col);
    BeginsInside(grid.maxY - grid.minY, span, row);
  }

  lemma OverlappedCell(p: Pyramid, n: nat, c: TileCoord, row: int, col: int, b: Bbox)
    requires ValidPyramid(p, n) && c.z in p.geoms && c.x == col * n && c.y == row * n && row >= 0 && col >= 0
    requires BeginsInExtent(NormalizeBbox(p.gridBbox), p.tileSize * p.resolutions[c.z], c) && b in p.geoms[c.z]
    requires HasArea(Intersection(MetatileBox(p, n, c), ClipX(b, NormalizeBbox(p.gridBbox))))
    ensures SeededAt(p, n, MetaCell(c.z, row, col))
  {
    CellInMatrix(p, n, c, row, col);
    CellIsMetatile(p, n, c, row, col);
    OverlappedSeeded(p.geoms[c.z], NormalizeBbox(p.gridBbox), Span(p, c.z, n), row, col, b);
  }

  /** Every metatile that begins in the grid and shares an area with the geometry of its
      zoom, between the sides of the grid, is seeded. */
  lemma OverlappedTile(p: Pyramid, n: nat, c: TileCoord, b: Bbox)
    requires ValidPyramid(p, n) && BeginsInGrid(p, n, c) && b in p.geoms[c.z]
    requires HasArea(Intersection(MetatileBox(p, n, c), ClipX(b, NormalizeBbox(p.gridBbox))))
    ensures SeededTile(p, n, c)
  {
    DivOrder(0, c.x, n);
    DivOrder(0, c.y, n);
    assert c.x == c.x / n * n && c.y == c.y / n * n;
    OverlappedCell(p, n, c, c.y / n, c.x / n, b);
    assert c == ToTileCoord(MetaCell(c.z, c.y / n, c.x / n), n);
  }

  function ToTileCoords(cells: seq<MetaCell>, n: nat): (coords: seq<TileCoord>)
    ensures |coords| == |cells| && forall i | 0 <= i < |cells| :: coords[i] == ToTileCoord(cells[i], n)
  {
    seq(|cells|, i requires 0 <= i < |cells| => ToTileCoord(cells[i], n))
  }

  /** The metatiles of every zoom: each seeded one, once. */
  method MetaTileCoords(p: Pyramid, n: nat) returns (coords: seq<TileCoord>)
    requires ValidPyramid(p, n)
    ensures forall c :: c in coords <==> SeededTile(p, n, c)
    ensures forall i, j | 0 <= i < j < |coords| :: coords[i] != coords[j]
    ensures forall c | c in coords ::
      && c.n == n && c.z in p.zooms && c.z in p.geoms
      && (HasArea(NormalizeBbox(p.gridBbox)) ==> BeginsInGrid(p, n, c))
      && exists b | b in p.geoms[c.z] :: Ordered(Intersection(MetatileBox(p, n, c), b))
    ensures forall c: TileCoord, b: Bbox |
      BeginsInGrid(p, n, c) && b in p.geoms[c.z]
      && HasArea(Intersection(MetatileBox(p, n, c), ClipX(b, NormalizeBbox(p.gridBbox)))) :: c in coords
  {
    coords := [];
    ghost var cells := [];
    NoZoom(p, n);
    for i := 0 to |p.zooms|
      invariant coords == ToTileCoords(cells, n)
      invariant SeededCells(p, n, p.zooms[..i], cells)
    {
      var zoomCells := CellsAt(p, n, p.zooms[i]);
      coords := coords + ToTileCoords(zoomCells, n);
      ToTileCoordsAppend(cells, zoomCells, n);
      NextZoom(p, n, i, cells, zoomCells);
      cells := cells + zoomCells;
    }
    AllZooms(p, n, cells);
    forall c | c in coords
      ensures c.n == n && c.z in p.zooms && c.z in p.geoms
      ensures HasArea(NormalizeBbox(p.gridBbox)) ==> BeginsInGrid(p, n, c)
      ensures exists b | b in p.geoms[c.z] :: Ordered(Intersection(MetatileBox(p, n, c), b))
    {
      SeededTileTouches(p, n, c);
    }
    forall c: TileCoord, b: Bbox
      | BeginsInGrid(p, n, c) && b in p.geoms[c.z]
        && HasArea(Intersection(MetatileBox(p, n, c), ClipX(b, NormalizeBbox(p.gridBbox))))
      ensures c in coords
    {
      OverlappedTile(p, n, c, b);
    }
  }

  lemma ToTileCoordsAppend(a: seq<MetaCell>, b: seq<MetaCell>, n: nat)
    ensures ToTileCoords(a + b, n) == ToTileCoords(a, n) + ToTileCoords(b, n)
  {
  }

  lemma NoZoom(p: Pyramid, n: nat)
    requires ValidPyramid(p, n)
    ensures SeededCells(p, n, p.zooms[..0], []) && ToTileCoords([], n) == []
  {
  }

  lemma AllZooms(p: Pyramid, n: nat, cells: seq<MetaCell>)
    requires ValidPyramid(p, n) && SeededCells(p, n, p.zooms[..|p.zooms|], cells)
    ensures forall c :: c in ToTileCoords(cells, n) <==> SeededTile(p, n, c)
    ensures forall i, j | 0 <= i < j < |cells| :: ToTileCoords(cells, n)[i] != ToTileCoords(cells, n)[j]
  {
    assert p.zooms[..|p.zooms|] == p.zooms;
    CellsToCoords(p, n, cells);
  }

  lemma CellsToCoords(p: Pyramid, n: nat, cells: seq<MetaCell>)
    requires ValidPyramid(p, n) && SeededCells(p, n, p.zooms, cells)
    ensures forall c :: c in ToTileCoords(cells, n) <==> SeededTile(p, n, c)
    ensures forall i, j | 0 <= i < j < |cells| :: ToTileCoords(cells, n)[i] != ToTileCoords(cells, n)[j]
  {
    var coords := ToTileCoords(cells, n);
    forall c ensures c in coords <==> SeededTile(p, n, c) {
      if c in coords {
        var i :| 0 <= i < |coords| && coords[i] == c;
        assert cells[i] in cells;
      }
      if SeededTile(p, n, c) {
        var cell: MetaCell :| cell.zoom in p.zooms && SeededAt(p, n, cell) && c == ToTileCoord(cell, n);
        assert cell in cells;
        var i :| 0 <= i < |cells| && cells[i] == cell;
        assert coords[i] == c;
      }
    }
    forall i, j | 0 <= i < j < |coords| ensures coords[i] != coords[j] {
      DistinctCoords(cells[i], cells[j], n);
    }
  }

  /** `cells` are the seeded metatiles of these zooms, each once. */
  ghost predicate SeededCells(p: Pyramid, n: nat, zooms: seq<nat>, cells: seq<MetaCell>)
    requires ValidPyramid(p, n)
  {
    (forall c :: c in cells <==> c.zoom in zooms && SeededAt(p, n, c))
    && forall k, l | 0 <= k < l < |cells| :: cells[k] != cells[l]
  }

  lemma NextZoom(p: Pyramid, n: nat, i: nat, cells: seq<MetaCell>, more: seq<MetaCell>)
    requires ValidPyramid(p, n) && i < |p.zooms| && SeededCells(p, n, p.zooms[..i], cells)
    requires Increasing(more) && forall c :: c in more <==> c.zoom == p.zooms[i] && SeededAt(p, n, c)
    ensures SeededCells(p, n, p.zooms[..i + 1], cells + more)
  {
    assert p.zooms[..i + 1] == p.zooms[..i] + [p.zooms[i]];
    AppendDistinct(cells, more, p.zooms[..i], p.zooms[i]);
  }

  lemma AppendDistinct(cells: seq<MetaCell>, more: seq<MetaCell>, zooms: seq<nat>, zoom: nat)
    requires zoom !in zooms && forall c | c in cells :: c.zoom in zooms
    requires forall c | c in more :: c.zoom == zoom
    requires Increasing(more) && forall k, l | 0 <= k < l < |cells| :: cells[k] != cells[l]
    ensures forall k, l | 0 <= k < l < |cells + more| :: (cells + more)[k] != (cells + more)[l]
  {
    forall k, l | 0 <= k < l < |cells + more| ensures (cells + more)[k] != (cells + more)[l] {
      if k < |cells| <= l {
        assert cells[k] in cells && more[l - |cells|] in more;
      } else if |cells| <= k {
        assert Less(more[k - |cells|], more[l - |cells|]);
      }
    }
  }

  lemma DistinctCoords(a: MetaCell, b: MetaCell, n: nat)
    requires n > 0
    ensures ToTileCoord(a, n) == ToTileCoord(b, n) ==> a == b
  {
    MulOrder(a.row + 1, b.row, n);
    MulOrder(b.row + 1, a.row, n);
    MulOrder(a.col + 1, b.col, n);
    MulOrder(b.col + 1, a.col, n);
  }

  /** An index in the clamped range of tiles lies in the clamped range of metatiles. */
  lemma CoarseIndex(lo: real, hi: real, extent: real, span: real, n: nat, k: int)
    requires span > 0.0 && n > 0
    requires 0 <= k <= LastIndex(extent, span)
    requires Clamp(Floor(lo / span), LastIndex(extent, span)) <= k
    requires k <= Clamp(Ceil(hi / span) - 1, LastIndex(extent, span))
    ensures var coarse := n as real * span;
      && coarse > 0.0
      && 0 <= k / n <= LastIndex(extent, coarse)
      && Clamp(Floor(lo / coarse), LastIndex(extent, coarse)) <= k / n
                                                              <= Clamp(Ceil(hi / coarse) - 1, LastIndex(extent, coarse))
  {
    var last := LastIndex(extent, span);
    var first, end := Clamp(Floor(lo / span), last), Clamp(Ceil(hi / span) - 1, last);
    CoarseEqualsFine(lo, hi, extent, span, n);
    DivOrder(first, k, n);
    DivOrder(k, end, n);
    DivOrder(0, k, n);
    DivOrder(k, last, n);
  }

  /** A tile within the limits lies in a metatile within the limits of the metatiles. */
  lemma CoarseLimit(clip: Bbox, grid: Bbox, span: real, n: nat, zoom: nat, row: int, col: int)
    requires span > 0.0 && n > 0 && ClippedTo(clip, grid)
    requires Within(LimitAt(clip, grid, 0.0, span, zoom), row, col)
    ensures n as real * span > 0.0 && InMatrix(grid, n as real * span, row / n, col / n)
    ensures Within(LimitAt(clip, grid, 0.0, n as real * span, zoom), row / n, col / n)
  {
    LimitsValid(clip, grid, 0.0, span, zoom);
    CoarseIndex(clip.minX - 0.0 - grid.minX, clip.maxX + 0.0 - grid.minX, grid.maxX - grid.minX, span, n, col);
    CoarseIndex(grid.maxY - (clip.maxY + 0.0), grid.maxY - (clip.minY - 0.0), grid.maxY - grid.minY, span, n, row);
  }

  /** With no buffer, every tile that the limits advertise for a box lies in a
      metatile that is seeded from that box. */
  lemma AdvertisedIsSeeded(layer: Bbox, grid: Bbox, span: real, n: nat, zoom: nat, row: int, col: int)
    requires span > 0.0 && n > 0 && HasArea(layer) && HasArea(Intersection(layer, grid))
    requires Within(LimitAt(Intersection(layer, grid), grid, 0.0, span, zoom), row, col)
    ensures n as real * span > 0.0
    ensures Seeded([layer], grid, n as real * span, row / n, col / n)
  {
    var clip := Intersection(layer, grid);
    ClipInsideGrid(layer, grid);
    CoarseLimit(clip, grid, span, n, zoom, row, col);
    var coarse := n as real * span;
    LimitsExact(clip, grid, coarse, zoom, row / n, col / n);
    ClipOfLayer(Cell(grid, coarse, row / n, col / n), layer, grid);
    OverlappedSeeded([layer], grid, coarse, row / n, col / n, layer);
  }

  lemma ClipOfLayer(cell: Bbox, layer: Bbox, grid: Bbox)
    requires HasArea(Intersection(cell, Intersection(layer, grid)))
    ensures HasArea(Intersection(cell, ClipX(layer, grid)))
  {
  }
}
