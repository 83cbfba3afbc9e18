/** The estimate of how many XYZ tiles a layer needs: for every zoom level, the number of tile
    columns times the number of tile rows its bounding box touches. Arithmetic is on exact
    reals; the row of a latitude (the Web Mercator formula, built from `tan`, `log` and
    `cos`) is a parameter. */
module TileCount {

  /** `2 ** z`, also for a negative zoom. */
  function Pow2(z: int): (p: real)
    ensures p > 0.0
    decreases if z >= 0 then z else -z
  {
    if z == 0 then 1.0
    else if z > 0 then 2.0 * Pow2(z - 1)
    else Pow2(z + 1) / 2.0
  }

  /** The tile column of a longitude: `math.floor((x + 180) / 360 * (2 ** z))`. */
  function TileX(x: real, z: int): int {
    ((x + 180.0) / 360.0 * Pow2(z)).Floor
  }

  /** The tile row of a latitude at a zoom level, `lat_to_tile_y`. */
  type RowFn = (real, int) -> int

  /** Rows are numbered from the north: a latitude further north is never on a later row. */
  ghost predicate RowNonIncreasing(row: RowFn) {
    forall lat1: real, lat2: real, z: int {:trigger row(lat1, z), row(lat2, z)} ::
      lat1 <= lat2 ==> row(lat2, z) <= row(lat1, z)
  }

  /** A bounding box in degrees, as the script is handed it. */
  datatype Extent = Extent(xMin: real, xMax: real, yMin: real, yMax: real)

  predicate Ordered(e: Extent) {
    e.xMin <= e.xMax && e.yMin <= e.yMax
  }

  /** `(tile_x_max - tile_x_min + 1) * (tile_y_max - tile_y_min + 1)` at one zoom level; the
      northern edge gives the first row. */
  function LevelTiles(e: Extent, z: int, row: RowFn): int {
    (TileX(e.xMax, z) - TileX(e.xMin, z) + 1) * (row(e.yMin, z) - row(e.yMax, z) + 1)
  }

  /** The sum of `LevelTiles` over `range(zoom_min, zoom_max + 1)`. */
  function TotalTiles(e: Extent, zoomMin: int, zoomMax: int, row: RowFn): int
    decreases zoomMax - zoomMin
  {
    if zoomMax < zoomMin then 0
    else TotalTiles(e, zoomMin, zoomMax - 1, row) + LevelTiles(e, zoomMax, row)
  }

  /** `compute_total_tiles`: the running total over the zoom levels, lowest first. */
  method ComputeTotalTiles(e: Extent, zoomMin: int, zoomMax: int, row: RowFn) returns (total: int)
    ensures total == TotalTiles(e, zoomMin, zoomMax, row)
  {
    total := 0;
    var z := zoomMin;
    while z < zoomMax + 1
      invariant zoomMin <= z
      invariant z <= zoomMax + 1 || z == zoomMin
      invariant total == TotalTiles(e, zoomMin, z - 1, row)
      decreases zoomMax + 1 - z
    {
      var txMin := TileX(e.xMin, z);
      var txMax := TileX(e.xMax, z);
      var tyMin := row(e.yMax, z);
      var tyMax := row(e.yMin, z);
      var count := (txMax - txMin + 1) * (tyMax - tyMin + 1);
      assert count == LevelTiles(e, z, row);
      total := total + count;
      z := z + 1;
    }
  }

  // ---------------------------------------------------------------- properties

  /** The column never moves west as the longitude grows. */
  lemma TileXMonotone(x1: real, x2: real, z: int)
    requires x1 <= x2
    ensures TileX(x1, z) <= TileX(x2, z)
  {
    var p := Pow2(z);
    assert (x1 + 180.0) / 360.0 * p <= (x2 + 180.0) / 360.0 * p;
  }

  /** Zoom level z has 2^z columns, but the eastern edge 180 degrees falls on column 2^z, one
      past the last, so a box reaching it is counted one column wider. */
  lemma AntimeridianColumn(z: nat)
    ensures TileX(-180.0, z) == 0
    ensures TileX(180.0, z) == Pow2(z).Floor
  {
  }

  /** An ordered box covers at least one tile at every level. */
  lemma LevelTilesPositive(e: Extent, z: int, row: RowFn)
    requires Ordered(e) && RowNonIncreasing(row)
    ensures LevelTiles(e, z, row) >= 1
  {
    TileXMonotone(e.xMin, e.xMax, z);
    assert row(e.yMax, z) <= row(e.yMin, z);
    var w := TileX(e.xMax, z) - TileX(e.xMin, z) + 1;
    var h := row(e.yMin, z) - row(e.yMax, z) + 1;
    assert w >= 1 && h >= 1;
    assert w * h >= 1 * h;
  }

  /** No level is counted when the range is empty, and otherwise each level adds at least one
      tile, so the total is at least the number of levels. */
  lemma {:induction false} TotalTilesBounds(e: Extent, zoomMin: int, zoomMax: int, row: RowFn)
    requires Ordered(e) && RowNonIncreasing(row)
    ensures zoomMax < zoomMin ==> TotalTiles(e, zoomMin, zoomMax, row) == 0
    ensures zoomMin <= zoomMax ==> TotalTiles(e, zoomMin, zoomMax, row) >= zoomMax - zoomMin + 1
    decreases zoomMax - zoomMin
  {
    if zoomMin <= zoomMax {
      TotalTilesBounds(e, zoomMin, zoomMax - 1, row);
      LevelTilesPositive(e, zoomMax, row);
    }
  }

  /** Raising the top zoom level never lowers the estimate; each added level adds to it. */
  lemma {:induction false} TotalMonotoneInZoomMax(e: Extent, zoomMin: int, zoomMax1: int, zoomMax2: int, row: RowFn)
    requires Ordered(e) && RowNonIncreasing(row)
    requires zoomMax1 <= zoomMax2
    ensures TotalTiles(e, zoomMin, zoomMax1, row) <= TotalTiles(e, zoomMin, zoomMax2, row)
    ensures zoomMin <= zoomMax2 && zoomMax1 < zoomMax2 ==>
      TotalTiles(e, zoomMin, zoomMax1, row) < TotalTiles(e, zoomMin, zoomMax2, row)
    decreases zoomMax2 - zoomMax1
  {
    if zoomMax1 < zoomMax2 {
      TotalMonotoneInZoomMax(e, zoomMin, zoomMax1, zoomMax2 - 1, row);
      if zoomMin <= zoomMax2 {
        LevelTilesPositive(e, zoomMax2, row);
      } else {
        TotalTilesBounds(e, zoomMin, zoomMax2, row);
        TotalTilesBounds(e, zoomMin, zoomMax1, row);
      }
    }
  }

  /** `outer` contains `inner` on all four sides. */
  predicate Widens(outer: Extent, inner: Extent) {
    outer.xMin <= inner.xMin && inner.xMax <= outer.xMax && outer.yMin <= inner.yMin && inner.yMax <= outer.yMax
  }

  /** A wider box covers at least as many tiles at a level. */
  lemma LevelTilesMonotone(inner: Extent, outer: Extent, z: int, row: RowFn)
    requires Ordered(inner) && Widens(outer, inner) && RowNonIncreasing(row)
    ensures LevelTiles(inner, z, row) <= LevelTiles(outer, z, row)
  {
    TileXMonotone(inner.xMin, inner.xMax, z);
    TileXMonotone(outer.xMin, inner.xMin, z);
    TileXMonotone(inner.xMax, outer.xMax, z);
    assert row(inner.yMax, z) <= row(inner.yMin, z);
    assert row(outer.yMax, z) <= row(inner.yMax, z);
    assert row(inner.yMin, z) <= row(outer.yMin, z);
    MulMonotone(TileX(inner.xMax, z) - TileX(inner.xMin, z) + 1, row(inner.yMin, z) - row(inner.yMax, z) + 1,
                TileX(outer.xMax, z) - TileX(outer.xMin, z) + 1, row(outer.yMin, z) - row(outer.yMax, z) + 1);
  }

  lemma MulMonotone(a: int, b: int, c: int, d: int)
    requires 1 <= a <= c && 1 <= b <= d
    ensures a * b <= c * d
  {
    assert c * b - a * b == (c - a) * b;
    assert c * d - c * b == c * (d - b);
  }

  /** Widening the bounding box never lowers the estimate. */
  lemma {:induction false} TotalMonotoneInExtent(inner: Extent, outer: Extent, zoomMin: int, zoomMax: int, row: RowFn)
    requires Ordered(inner) && Widens(outer, inner) && RowNonIncreasing(row)
    ensures TotalTiles(inner, zoomMin, zoomMax, row) <= TotalTiles(outer, zoomMin, zoomMax, row)
    decreases zoomMax - zoomMin
  {
    if zoomMin <= zoomMax {
      TotalMonotoneInExtent(inner, outer, zoomMin, zoomMax - 1, row);
      LevelTilesMonotone(inner, outer, zoomMax, row);
    }
  }
}
