/** From real bounds to ranges of tile indices. */
module TileRanges {
  import opened Common
  import opened IndexIntervals
  import opened Divisibility

  function Floor(x: real): int { x.Floor }

  function Ceil(x: real): int { -(-x).Floor }

  function Clamp(index: int, maxIndex: int): int { Max(0, Min(maxIndex, index)) }

  lemma ScaleOrder(a: real, b: real, s: real)
    requires s > 0.0
    ensures a <= b <==> a * s <= b * s
    ensures a < b <==> a * s < b * s
  {
    assert (b - a) * s == b * s - a * s;
    if a < b { assert (b - a) * s > 0.0; }
    if b < a { assert (a - b) * s > 0.0; }
  }

  /** Index k is at most the floor of x / span exactly when k spans fit below x. */
  lemma FloorExact(x: real, span: real, k: int)
    requires span > 0.0
    ensures k <= Floor(x / span) <==> k as real * span <= x
  {
    ScaleOrder(k as real, x / span, span);
    assert (x / span) * span == x;
  }

  /** Index k is below the ceiling of x / span exactly when k spans end before x. */
  lemma CeilExact(x: real, span: real, k: int)
    requires span > 0.0
    ensures k < Ceil(x / span) <==> k as real * span < x
  {
    ScaleOrder(k as real, x / span, span);
    assert (x / span) * span == x;
  }

  /** The clamped range of the indices between two bounds, in either order. */
  function BoundsToIndexRange(boundsMin: real, boundsMax: real, origin: real, span: real, maxIndex: int)
    : Option<Interval>
    requires span > 0.0
  {
    var lo := if boundsMin > boundsMax then boundsMax else boundsMin;
    var hi := if boundsMin > boundsMax then boundsMin else boundsMax;
    var start := Clamp(Floor((lo - origin) / span), maxIndex);
    var end := Clamp(Ceil((hi - origin) / span) - 1, maxIndex);
    if start > end then None else Some(Interval(start, end))
  }

  /** The same for rows, which are counted downwards from the top. */
  function YBoundsToIndexRange(boundsMin: real, boundsMax: real, originTop: real, span: real, maxIndex: int)
    : Option<Interval>
    requires span > 0.0
  {
    var lo := if boundsMin > boundsMax then boundsMax else boundsMin;
    var hi := if boundsMin > boundsMax then boundsMin else boundsMax;
    var start := Clamp(Floor((originTop - hi) / span), maxIndex);
    var end := Clamp(Ceil((originTop - lo) / span) - 1, maxIndex);
    if start > end then None else Some(Interval(start, end))
  }

  /** The extent of cell k overlaps (lo, hi) in more than a point. */
  predicate Overlaps(lo: real, hi: real, span: real, k: int) {
    k as real * span < hi && lo < (k + 1) as real * span
  }

  /** The closed extent of cell k meets [lo, hi]. */
  predicate Touches(lo: real, hi: real, span: real, k: int) {
    k as real * span <= hi && lo <= (k + 1) as real * span
  }

  /** The unclamped range holds exactly the cells that the bounds overlap. */
  lemma RangeExact(lo: real, hi: real, span: real, k: int)
    requires span > 0.0
    ensures Floor(lo / span) <= k <= Ceil(hi / span) - 1 <==> Overlaps(lo, hi, span, k)
  {
    FloorExact(lo, span, k + 1);
    CeilExact(hi, span, k);
  }

  /** Bounds of positive length that start below 0 or end above the extent are
      clamped to cells inside; a cell inside is in the clamped range if the bounds
      overlap it, and only if they do or it is a cell at the clamped end. */
  lemma ClampedRange(lo: real, hi: real, span: real, maxIndex: int, k: int)
    requires span > 0.0 && lo <= hi && 0 <= k <= maxIndex
    ensures Overlaps(lo, hi, span, k) ==>
              Clamp(Floor(lo / span), maxIndex) <= k <= Clamp(Ceil(hi / span) - 1, maxIndex)
    ensures Clamp(Floor(lo / span), maxIndex) <= k <= Clamp(Ceil(hi / span) - 1, maxIndex) ==>
              Overlaps(lo, hi, span, k) || (k == 0 && hi <= 0.0)
              || (k == maxIndex && (maxIndex + 1) as real * span <= lo)
  {
    RangeExact(lo, hi, span, k);
    FloorExact(lo, span, k + 1);
    CeilExact(hi, span, k);
  }

  lemma WiderOverlaps(lo: real, hi: real, lo': real, hi': real, span: real, k: int)
    requires Overlaps(lo, hi, span, k) && lo' <= lo && hi <= hi'
    ensures Overlaps(lo', hi', span, k)
  {
  }

  /** A column of the matrix that the bounds overlap is in their index range. */
  lemma InXRange(boundsMin: real, boundsMax: real, origin: real, span: real, maxIndex: int, k: int)
    requires span > 0.0 && boundsMin <= boundsMax && 0 <= k <= maxIndex
    requires Overlaps(boundsMin - origin, boundsMax - origin, span, k)
    ensures var r := BoundsToIndexRange(boundsMin, boundsMax, origin, span, maxIndex);
            r.Some? && r.value.start <= k <= r.value.end
  {
    ClampedRange(boundsMin - origin, boundsMax - origin, span, maxIndex, k);
  }

  /** The same for rows. */
  lemma InYRange(boundsMin: real, boundsMax: real, originTop: real, span: real, maxIndex: int, k: int)
    requires span > 0.0 && boundsMin <= boundsMax && 0 <= k <= maxIndex
    requires Overlaps(originTop - boundsMax, originTop - boundsMin, span, k)
    ensures var r := YBoundsToIndexRange(boundsMin, boundsMax, originTop, span, maxIndex);
            r.Some? && r.value.start <= k <= r.value.end
  {
    ClampedRange(originTop - boundsMax, originTop - boundsMin, span, maxIndex, k);
  }

  /** The last index of an extent. */
  function LastIndex(extent: real, span: real): int
    requires span > 0.0
  {
    Ceil(extent / span) - 1
  }

  lemma CastMul(k: int, n: nat)
    ensures (k * n) as real == k as real * n as real
  {
    if n > 0 {
      CastMul(k, n - 1);
      assert k * n == k * (n - 1) + k;
      assert k as real * n as real == k as real * (n - 1) as real + k as real;
    }
  }

  lemma ScaledCell(k: int, n: nat, span: real)
    ensures k as real * (n as real * span) == (k * n) as real * span
  {
    CastMul(k, n);
  }

  /** Floors and ceilings nest: a metatile index is the tile index divided by n. */
  lemma NestedFloor(x: real, span: real, n: nat)
    requires span > 0.0 && n > 0
    ensures n as real * span > 0.0
    ensures Floor(x / (n as real * span)) == Floor(x / span) / n
  {
    var f, g := Floor(x / (n as real * span)), Floor(x / span) / n;
    NestedFloorAt(x, span, n, f);
    NestedFloorAt(x, span, n, g);
  }

  lemma NestedFloorAt(x: real, span: real, n: nat, k: int)
    requires span > 0.0 && n > 0
    ensures n as real * span > 0.0
    ensures k <= Floor(x / (n as real * span)) <==> k <= Floor(x / span) / n
  {
    ScaleOrder(0.0, n as real, span);
    FloorExact(x, n as real * span, k);
    ScaledCell(k, n, span);
    FloorExact(x, span, k * n);
    DivExact(Floor(x / span), n, k);
  }

  lemma NestedCeil(x: real, span: real, n: nat)
    requires span > 0.0 && n > 0
    ensures n as real * span > 0.0
    ensures Ceil(x / (n as real * span)) - 1 == (Ceil(x / span) - 1) / n
  {
    var f, g := Ceil(x / (n as real * span)) - 1, (Ceil(x / span) - 1) / n;
    NestedCeilAt(x, span, n, f);
    NestedCeilAt(x, span, n, g);
  }

  lemma NestedCeilAt(x: real, span: real, n: nat, k: int)
    requires span > 0.0 && n > 0
    ensures n as real * span > 0.0
    ensures k <= Ceil(x / (n as real * span)) - 1 <==> k <= (Ceil(x / span) - 1) / n
  {
    ScaleOrder(0.0, n as real, span);
    CeilExact(x, n as real * span, k);
    ScaledCell(k, n, span);
    CeilExact(x, span, k * n);
    DivExact(Ceil(x / span) - 1, n, k);
  }

  lemma ClampDiv(v: int, m: int, n: nat)
    requires n > 0
    ensures Clamp(v / n, m / n) == Clamp(v, m) / n
  {
    DivOrder(0, v, n);
    DivOrder(v, 0, n);
    DivOrder(0, m, n);
    DivOrder(m, 0, n);
    DivOrder(v, m, n);
    DivOrder(m, v, n);
    assert 0 / n == 0;
  }

  /** The clamped range of metatiles is the clamped range of tiles divided by n,
      at both ends. */
  lemma CoarseEqualsFine(lo: real, hi: real, extent: real, span: real, n: nat)
    requires span > 0.0 && n > 0
    ensures var coarse := n as real * span;
      && coarse > 0.0
      && LastIndex(extent, coarse) == LastIndex(extent, span) / n
      && Clamp(Floor(lo / coarse), LastIndex(extent, coarse)) == Clamp(Floor(lo / span), LastIndex(extent, span)) / n
      && Clamp(Ceil(hi / coarse) - 1, LastIndex(extent, coarse))
         == Clamp(Ceil(hi / span) - 1, LastIndex(extent, span)) / n
  {
    NestedFloor(lo, span, n);
    NestedCeil(hi, span, n);
    NestedCeil(extent, span, n);
    ClampDiv(Floor(lo / span), LastIndex(extent, span), n);
    ClampDiv(Ceil(hi / span) - 1, LastIndex(extent, span), n);
  }
}
