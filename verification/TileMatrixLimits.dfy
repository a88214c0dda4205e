/** The WMTS tile matrix limits of a layer: the rows and columns that hold its tiles. */
module TileMatrixLimits {
  import opened Common
  import opened TileRanges

  datatype Bbox = Bbox(minX: real, minY: real, maxX: real, maxY: real)

  function MinReal(a: real, b: real): real { if a < b then a else b }

  function MaxReal(a: real, b: real): real { if a < b then b else a }

  /** The box with the given opposite corners, in whichever order. */
  function NormalizeBbox(b: Bbox): Bbox {
    Bbox(MinReal(b.minX, b.maxX), MinReal(b.minY, b.maxY), MaxReal(b.minX, b.maxX), MaxReal(b.minY, b.maxY))
  }

  /** The corners are in order and are those of the box. */
  lemma NormalizedCorners(b: Bbox)
    ensures var c := NormalizeBbox(b);
      && c.minX <= c.maxX && c.minY <= c.maxY
      && ((c.minX, c.maxX) == (b.minX, b.maxX) || (c.minX, c.maxX) == (b.maxX, b.minX))
      && ((c.minY, c.maxY) == (b.minY, b.maxY) || (c.minY, c.maxY) == (b.maxY, b.minY))
  {
  }

  predicate Ordered(b: Bbox) { b.minX <= b.maxX && b.minY <= b.maxY }

  predicate HasArea(b: Bbox) { b.minX < b.maxX && b.minY < b.maxY }

  function Intersection(a: Bbox, b: Bbox): Bbox {
    Bbox(MaxReal(a.minX, b.minX), MaxReal(a.minY, b.minY), MinReal(a.maxX, b.maxX), MinReal(a.maxY, b.maxY))
  }

  function Buffered(b: Bbox, m: real): Bbox { Bbox(b.minX - m, b.minY - m, b.maxX + m, b.maxY + m) }

  /** The box of cell (row, col) of a grid: columns count from its left, rows from its top. */
  function Cell(grid: Bbox, span: real, row: int, col: int): Bbox {
    Frame(grid, col as real * span, (col + 1) as real * span, row as real * span, (row + 1) as real * span)
  }

  /** The box between two distances from the left and two from the top of the grid. */
  function Frame(grid: Bbox, left: real, right: real, top: real, bottom: real): Bbox {
    Bbox(grid.minX + left, grid.maxY - bottom, grid.minX + right, grid.maxY - top)
  }

  lemma FrameOverlaps(b: Bbox, grid: Bbox, left: real, right: real, top: real, bottom: real)
    requires left < right && top < bottom && HasArea(b)
    ensures HasArea(Intersection(Frame(grid, left, right, top, bottom), b))
            <==> left < b.maxX - grid.minX && b.minX - grid.minX < right
                 && top < grid.maxY - b.minY && grid.maxY - b.maxY < bottom
  {
  }

  lemma FrameTouches(b: Bbox, grid: Bbox, left: real, right: real, top: real, bottom: real)
    requires left < right && top < bottom && Ordered(b)
    requires left <= b.maxX - grid.minX && b.minX - grid.minX <= right
    requires top <= grid.maxY - b.minY && grid.maxY - b.maxY <= bottom
    ensures Ordered(Intersection(Frame(grid, left, right, top, bottom), b))
  {
  }

  /** The sides of a cell are in order. */
  lemma CellSides(span: real, k: int)
    requires span > 0.0
    ensures k as real * span < (k + 1) as real * span
  {
    ScaleOrder(k as real, (k + 1) as real, span);
  }

  datatype Limit = Limit(tileMatrix: nat, minTileRow: int, maxTileRow: int, minTileCol: int, maxTileCol: int)

  predicate Within(l: Limit, row: int, col: int) {
    l.minTileRow <= row <= l.maxTileRow && l.minTileCol <= col <= l.maxTileCol
  }

  function LimitAt(clip: Bbox, grid: Bbox, mBuffer: real, span: real, zoom: nat): Limit
    requires span > 0.0
  {
    var left, right := clip.minX - mBuffer - grid.minX, clip.maxX + mBuffer - grid.minX;
    var top, bottom := grid.maxY - (clip.maxY + mBuffer), grid.maxY - (clip.minY - mBuffer);
    var lastCol, lastRow := LastIndex(grid.maxX - grid.minX, span), LastIndex(grid.maxY - grid.minY, span);
    Limit(zoom, Clamp(Floor(top / span), lastRow), Clamp(Ceil(bottom / span) - 1, lastRow),
          Clamp(Floor(left / span), lastCol), Clamp(Ceil(right / span) - 1, lastCol))
  }

  /** The limit at one resolution of the grid. */
  function LimitOf(clip: Bbox, grid: Bbox, pxBuffer: real, tileSize: real, resolution: real, zoom: nat): Limit
    requires tileSize > 0.0 && resolution > 0.0
  {
    ScaleOrder(0.0, resolution, tileSize);
    LimitAt(clip, grid, pxBuffer * resolution, resolution * tileSize, zoom)
  }

  /** What the limits are computed from: a box inside the grid, with an area. */
  predicate ClippedTo(clip: Bbox, grid: Bbox) {
    HasArea(clip) && grid.minX <= clip.minX && clip.maxX <= grid.maxX
    && grid.minY <= clip.minY && clip.maxY <= grid.maxY
  }

  lemma ClipInsideGrid(layer: Bbox, grid: Bbox)
    requires HasArea(Intersection(layer, grid))
    ensures ClippedTo(Intersection(layer, grid), grid)
  {
  }

  /** Cells are boxes with an area, so they overlap a box with an area exactly when
      they overlap it in both directions. */
  lemma CellOverlaps(b: Bbox, grid: Bbox, span: real, row: int, col: int)
    requires span > 0.0 && HasArea(b)
    ensures HasArea(Intersection(Cell(grid, span, row, col), b))
            <==> Overlaps(b.minX - grid.minX, b.maxX - grid.minX, span, col)
                 && Overlaps(grid.maxY - b.maxY, grid.maxY - b.minY, span, row)
  {
    CellSides(span, col);
    CellSides(span, row);
    FrameOverlaps(b, grid, col as real * span, (col + 1) as real * span, row as real * span, (row + 1) as real * span);
  }

  /** Bounds inside an extent, widened by m, give valid indices. */
  lemma ValidRange(lo: real, hi: real, extent: real, span: real)
    requires span > 0.0 && lo < hi && lo < extent && 0.0 < hi && 0.0 < extent
    ensures var last := LastIndex(extent, span);
      0 <= Clamp(Floor(lo / span), last) <= Clamp(Ceil(hi / span) - 1, last) <= last
  {
    CeilExact(extent, span, 0);
    FloorExact(lo, span, Floor(lo / span));
    CeilExact(hi, span, Floor(lo / span));
  }

  /** The limits are valid indices of the matrix. */
  lemma LimitsValid(clip: Bbox, grid: Bbox, m: real, span: real, zoom: nat)
    requires span > 0.0 && m >= 0.0 && ClippedTo(clip, grid)
    ensures var l := LimitAt(clip, grid, m, span, zoom);
      && 0 <= l.minTileRow <= l.maxTileRow < Ceil((grid.maxY - grid.minY) / span)
      && 0 <= l.minTileCol <= l.maxTileCol < Ceil((grid.maxX - grid.minX) / span)
  {
    ValidRange(clip.minX - m - grid.minX, clip.maxX + m - grid.minX, grid.maxX - grid.minX, span);
    ValidRange(grid.maxY - (clip.maxY + m), grid.maxY - (clip.minY - m), grid.maxY - grid.minY, span);
  }

  /** A tile of the matrix is within the limits exactly when it overlaps the buffered box:
      what is clamped are only indices outside the matrix. */
  lemma LimitsComplete(clip: Bbox, grid: Bbox, m: real, span: real, zoom: nat, row: int, col: int)
    requires span > 0.0 && m >= 0.0 && ClippedTo(clip, grid)
    requires 0 <= row < Ceil((grid.maxY - grid.minY) / span) && 0 <= col < Ceil((grid.maxX - grid.minX) / span)
    ensures Within(LimitAt(clip, grid, m, span, zoom), row, col)
            <==> HasArea(Intersection(Cell(grid, span, row, col), Buffered(clip, m)))
  {
    CellOverlaps(Buffered(clip, m), grid, span, row, col);
    MatrixRange(clip.minX - m - grid.minX, clip.maxX + m - grid.minX, grid.maxX - grid.minX, span, col);
    MatrixRange(grid.maxY - (clip.maxY + m), grid.maxY - (clip.minY - m), grid.maxY - grid.minY, span, row);
  }

  /** Clamping bounds that meet the extent adds no index of the matrix and drops none. */
  lemma MatrixRange(lo: real, hi: real, extent: real, span: real, k: int)
    requires span > 0.0 && lo < hi && lo < extent && 0.0 < hi && 0 <= k <= LastIndex(extent, span)
    ensures var last := LastIndex(extent, span);
      Clamp(Floor(lo / span), last) <= k <= Clamp(Ceil(hi / span) - 1, last) <==> Overlaps(lo, hi, span, k)
  {
    ClampedRange(lo, hi, span, LastIndex(extent, span), k);
    CeilExact(extent, span, LastIndex(extent, span) + 1);
  }

  /** Bounds inside the extent are not clamped: the range is exact for every index. */
  lemma InertRange(lo: real, hi: real, extent: real, span: real, k: int)
    requires span > 0.0 && 0.0 <= lo < hi <= extent
    ensures var last := LastIndex(extent, span);
      && Clamp(Floor(lo / span), last) == Floor(lo / span)
      && Clamp(Ceil(hi / span) - 1, last) == Ceil(hi / span) - 1
      && (Clamp(Floor(lo / span), last) <= k <= Clamp(Ceil(hi / span) - 1, last) <==> Overlaps(lo, hi, span, k))
  {
    FloorExact(lo, span, 0);
    CeilExact(extent, span, Ceil(hi / span) - 1);
    CeilExact(hi, span, Ceil(hi / span) - 1);
    CeilExact(hi, span, 0);
    FloorExact(lo, span, Floor(lo / span));
    CeilExact(extent, span, Floor(lo / span));
    RangeExact(lo, hi, span, k);
  }

  /** Without a buffer the limits are tight: they hold exactly the tiles that
      overlap the box, so no clamp ever bites. */
  lemma LimitsExact(clip: Bbox, grid: Bbox, span: real, zoom: nat, row: int, col: int)
    requires span > 0.0 && ClippedTo(clip, grid)
    ensures Within(LimitAt(clip, grid, 0.0, span, zoom), row, col)
            <==> HasArea(Intersection(Cell(grid, span, row, col), clip))
  {
    CellOverlaps(clip, grid, span, row, col);
    InertRange(clip.minX - 0.0 - grid.minX, clip.maxX + 0.0 - grid.minX, grid.maxX - grid.minX, span, col);
    InertRange(grid.maxY - (clip.maxY + 0.0), grid.maxY - (clip.minY - 0.0), grid.maxY - grid.minY, span, row);
  }

  // ----- All resolutions -----

  /** What the limit of one zoom promises, for tiles `tileSpan` wide and a box with an area
      inside the grid, widened by `margin`: it is a part of the matrix, and a tile of the
      matrix is inside exactly when it overlaps the widened box. */
  ghost predicate LimitServes(l: Limit, zoom: nat, clip: Bbox, grid: Bbox, margin: real, tileSpan: real)
    requires tileSpan > 0.0
  {
    && l.tileMatrix == zoom
    && (margin >= 0.0 ==>
          && 0 <= l.minTileRow <= l.maxTileRow < Ceil((grid.maxY - grid.minY) / tileSpan)
          && 0 <= l.minTileCol <= l.maxTileCol < Ceil((grid.maxX - grid.minX) / tileSpan)
          && forall row: int, col: int |
               0 <= row < Ceil((grid.maxY - grid.minY) / tileSpan)
               && 0 <= col < Ceil((grid.maxX - grid.minX) / tileSpan) ::
               Within(l, row, col) <==> HasArea(Intersection(Cell(grid, tileSpan, row, col), Buffered(clip, margin))))
  }

  /** The same at one resolution: a tile is `resolution * tileSize` wide, and the buffer in
      pixels is a margin of `pxBuffer * resolution`. */
  ghost predicate LimitServesAt(l: Limit, zoom: nat, clip: Bbox, grid: Bbox,
                                pxBuffer: real, tileSize: real, resolution: real)
  {
    resolution * tileSize > 0.0
    && LimitServes(l, zoom, clip, grid, pxBuffer * resolution, resolution * tileSize)
  }

  lemma LimitAtServes(clip: Bbox, grid: Bbox, m: real, span: real, zoom: nat)
    requires span > 0.0 && ClippedTo(clip, grid)
    ensures LimitServes(LimitAt(clip, grid, m, span, zoom), zoom, clip, grid, m, span)
  {
    if m >= 0.0 {
      LimitsValid(clip, grid, m, span, zoom);
      forall row: int, col: int
        | 0 <= row < Ceil((grid.maxY - grid.minY) / span) && 0 <= col < Ceil((grid.maxX - grid.minX) / span)
        ensures Within(LimitAt(clip, grid, m, span, zoom), row, col)
                <==> HasArea(Intersection(Cell(grid, span, row, col), Buffered(clip, m)))
      {
        LimitsComplete(clip, grid, m, span, zoom, row, col);
      }
    }
  }

  lemma LimitOfServes(clip: Bbox, grid: Bbox, pxBuffer: real, tileSize: real, resolution: real, zoom: nat)
    requires tileSize > 0.0 && resolution > 0.0 && ClippedTo(clip, grid)
    ensures LimitServesAt(LimitOf(clip, grid, pxBuffer, tileSize, resolution, zoom), zoom, clip, grid,
                          pxBuffer, tileSize, resolution)
  {
    ScaleOrder(0.0, resolution, tileSize);
    LimitAtServes(clip, grid, pxBuffer * resolution, resolution * tileSize, zoom);
  }

  /** The limits at every resolution of the grid; both boxes are in its projection. */
  method GetTileMatrixLimits(layerBbox: Option<Bbox>, gridBbox: Bbox, pxBuffer: real, forceLimits: bool,
                             tileSize: real, resolutions: seq<real>)
    returns (limits: seq<Limit>)
    requires tileSize > 0.0 && forall z | 0 <= z < |resolutions| :: resolutions[z] > 0.0
    ensures layerBbox.None? || (pxBuffer != 0.0 && !forceLimits) ==> limits == []
    ensures layerBbox.Some? && (pxBuffer == 0.0 || forceLimits) ==>
      var grid := NormalizeBbox(gridBbox);
      var clip := Intersection(NormalizeBbox(layerBbox.value), grid);
      && |limits| == (if HasArea(clip) then |resolutions| else 0)
      && forall z | 0 <= z < |limits| ::
           && LimitServesAt(limits[z], z, clip, grid, pxBuffer, tileSize, resolutions[z])
           && limits[z] == LimitOf(clip, grid, pxBuffer, tileSize, resolutions[z], z)
  {
    if layerBbox.None? || (pxBuffer != 0.0 && !forceLimits) {
      return [];
    }
    var layer, grid := NormalizeBbox(layerBbox.value), NormalizeBbox(gridBbox);
    var minX, minY := MaxReal(layer.minX, grid.minX), MaxReal(layer.minY, grid.minY);
    var maxX, maxY := MinReal(layer.maxX, grid.maxX), MinReal(layer.maxY, grid.maxY);
    if minX >= maxX || minY >= maxY {
      return [];
    }
    ghost var clip := Intersection(layer, grid);
    ClipInsideGrid(layer, grid);
    limits := [];
    for zoom := 0 to |resolutions|
      invariant |limits| == zoom
      invariant forall z | 0 <= z < zoom ::
                  && LimitServesAt(limits[z], z, clip, grid, pxBuffer, tileSize, resolutions[z])
                  && limits[z] == LimitOf(clip, grid, pxBuffer, tileSize, resolutions[z], z)
    {
      var limit := LimitAtResolution(minX, minY, maxX, maxY, grid, pxBuffer, tileSize, resolutions[zoom], zoom);
      limits := limits + [limit];
    }
  }

  /** The body of the loop over the resolutions. */
  method LimitAtResolution(minX: real, minY: real, maxX: real, maxY: real, grid: Bbox,
                           pxBuffer: real, tileSize: real, resolution: real, zoom: nat) returns (limit: Limit)
    requires tileSize > 0.0 && resolution > 0.0
    ensures limit == LimitOf(Bbox(minX, minY, maxX, maxY), grid, pxBuffer, tileSize, resolution, zoom)
    ensures ClippedTo(Bbox(minX, minY, maxX, maxY), grid) ==>
      LimitServesAt(limit, zoom, Bbox(minX, minY, maxX, maxY), grid, pxBuffer, tileSize, resolution)
  {
    if ClippedTo(Bbox(minX, minY, maxX, maxY), grid) {
      LimitOfServes(Bbox(minX, minY, maxX, maxY), grid, pxBuffer, tileSize, resolution, zoom);
    }
    var tileSpan, mBuffer := resolution * tileSize, pxBuffer * resolution;
    ScaleOrder(0.0, resolution, tileSize);
    var matrixWidth, matrixHeight := Ceil((grid.maxX - grid.minX) / tileSpan), Ceil((grid.maxY - grid.minY) / tileSpan);
    var minTileCol := Floor((minX - mBuffer - grid.minX) / tileSpan);
    var maxTileCol := Ceil((maxX + mBuffer - grid.minX) / tileSpan) - 1;
    var minTileRow := Floor((grid.maxY - (maxY + mBuffer)) / tileSpan);
    var maxTileRow := Ceil((grid.maxY - (minY - mBuffer)) / tileSpan) - 1;
    limit := Limit(zoom, Max(0, Min(matrixHeight - 1, minTileRow)), Max(0, Min(matrixHeight - 1, maxTileRow)),
                   Max(0, Min(matrixWidth - 1, minTileCol)), Max(0, Min(matrixWidth - 1, maxTileCol)));
    assert limit == LimitOf(Bbox(minX, minY, maxX, maxY), grid, pxBuffer, tileSize, resolution, zoom);
  }
}
