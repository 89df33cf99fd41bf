/**
 * Levels (src/Level.js): grid dimensions, the pinned-id set and the
 * construction of the socket grid with one home tile per socket. The colour
 * interpolation (`computeTileColors`) is an input here: `colors[row][col]`.
 */
module Levels {
  import opened Tiles
  import opened Sockets
  import opened CellIds
  import opened Geometry

  /** The four corner colours `TL`, `TR`, `BL`, `BR`. */
  datatype Anchors = Anchors(tl: Color, tr: Color, bl: Color, br: Color)

  /** The raw level record handed to the `Level` constructor (and written out in levels.js). */
  datatype RawLevel = RawLevel(
    anchorColors: Anchors,
    resolution: (int, int),
    pinnedTiles: seq<string>,
    showTargetStateBeforeRandomizing: bool)

  /** A constructed `Level`; the constructor keeps the pinned ids as a set. */
  datatype Level = Level(anchorColors: Anchors, nCols: int, nRows: int, pinnedTileIds: set<string>)

  /** The `Level` constructor: resolution is `[nCols, nRows]`, pinned ids become a set. */
  function NewLevel(raw: RawLevel): (l: Level)
    ensures l.nCols == raw.resolution.0 && l.nRows == raw.resolution.1
    ensures l.anchorColors == raw.anchorColors
    ensures forall id :: id in l.pinnedTileIds <==> id in raw.pinnedTiles
  {
    Level(raw.anchorColors, raw.resolution.0, raw.resolution.1, set id | id in raw.pinnedTiles)
  }

  /** A colour table with one entry per cell, as `computeTileColors` produces. */
  predicate ColorsFit(level: Level, colors: seq<seq<Color>>) {
    level.nCols >= 0 && level.nRows >= 0 &&
    |colors| == level.nRows && forall j :: 0 <= j < |colors| ==> |colors[j]| == level.nCols
  }

  /** The socket `createSockets` builds for column `i`, row `j`, holding its home tile. */
  function HomeSocket(level: Level, colors: seq<seq<Color>>, i: int, j: int): Socket
    requires ColorsFit(level, colors)
    requires 0 <= i < level.nCols && 0 <= j < level.nRows
  {
    var id := CellId(i, j);
    var pinned := id in level.pinnedTileIds;
    Socket(id, i, j, pinned, NewTile(id, colors[j][i], pinned))
  }

  /** The home socket for index `k` of the row-major grid. */
  function HomeAt(level: Level, colors: seq<seq<Color>>, k: int): Socket
    requires ColorsFit(level, colors)
    requires 0 <= k < level.nRows * level.nCols
  {
    CellOfIndex(k, level.nCols, level.nRows);
    HomeSocket(level, colors, k % level.nCols, k / level.nCols)
  }

  /**
   * `createSockets`: rows outer, columns inner, so the socket for column `i`,
   * row `j` lands at index `j * nCols + i`.
   */
  method CreateSockets(level: Level, colors: seq<seq<Color>>) returns (sockets: seq<Socket>)
    requires ColorsFit(level, colors)
    ensures IsGrid(level, colors, sockets)
  {
    var nCols, nRows := level.nCols, level.nRows;
    sockets := [];
    var j := 0;
    while j < nRows
      invariant 0 <= j <= nRows
      invariant |sockets| == j * nCols
      invariant HomePrefix(level, colors, sockets)
    {
      ghost var rowStart := |sockets|;
      var i := 0;
      while i < nCols
        invariant 0 <= i <= nCols
        invariant |sockets| == rowStart + i
        invariant HomePrefix(level, colors, sockets)
      {
        AppendHome(level, colors, sockets, i, j);
        sockets := sockets + [HomeSocket(level, colors, i, j)];
        i := i + 1;
      }
      assert |sockets| == (j + 1) * nCols;
      j := j + 1;
    }
  }

  /** The first `|sockets|` sockets of the grid, in row-major order. */
  predicate HomePrefix(level: Level, colors: seq<seq<Color>>, sockets: seq<Socket>)
    requires ColorsFit(level, colors)
  {
    |sockets| <= level.nRows * level.nCols &&
    forall k :: 0 <= k < |sockets| ==> sockets[k] == HomeAt(level, colors, k)
  }

  /** Appending the socket for column `i`, row `j` at index `j * nCols + i` extends the prefix. */
  lemma AppendHome(level: Level, colors: seq<seq<Color>>, sockets: seq<Socket>, i: int, j: int)
    requires ColorsFit(level, colors)
    requires 0 <= i < level.nCols && 0 <= j < level.nRows
    requires |sockets| == j * level.nCols + i
    requires HomePrefix(level, colors, sockets)
    ensures HomePrefix(level, colors, sockets + [HomeSocket(level, colors, i, j)])
  {
    CellIndexInGrid(i, j, level.nCols, level.nRows);
    HomeAtCell(level, colors, i, j);
    var s' := sockets + [HomeSocket(level, colors, i, j)];
    forall k | 0 <= k < |s'|
      ensures s'[k] == HomeAt(level, colors, k)
    {
      if k < |sockets| {
        assert s'[k] == sockets[k];
      }
    }
  }

  /** Index `j * nCols + i` of the grid holds the home socket of column `i`, row `j`. */
  lemma HomeAtCell(level: Level, colors: seq<seq<Color>>, i: int, j: int)
    requires ColorsFit(level, colors)
    requires 0 <= i < level.nCols && 0 <= j < level.nRows
    requires j * level.nCols + i < level.nRows * level.nCols
    ensures HomeAt(level, colors, j * level.nCols + i) == HomeSocket(level, colors, i, j)
  {
    DivModOfCell(i, j, level.nCols);
  }

  /** `sockets` is the grid `createSockets` builds: one home socket per index, `nRows * nCols` in all. */
  predicate IsGrid(level: Level, colors: seq<seq<Color>>, sockets: seq<Socket>)
    requires ColorsFit(level, colors)
  {
    |sockets| == level.nRows * level.nCols &&
    forall k :: 0 <= k < |sockets| ==> sockets[k] == HomeAt(level, colors, k)
  }

  /** The socket at index `j * nCols + i` is the one for column `i`, row `j`, with id `i,j`. */
  lemma GridCell(level: Level, colors: seq<seq<Color>>, sockets: seq<Socket>, i: int, j: int)
    requires ColorsFit(level, colors) && IsGrid(level, colors, sockets)
    requires 0 <= i < level.nCols && 0 <= j < level.nRows
    ensures 0 <= j * level.nCols + i < |sockets|
    ensures var s := sockets[j * level.nCols + i];
      s.col == i && s.row == j && s.id == CellId(i, j)
  {
    var n := level.nCols;
    MulIntMonotone(j + 1, level.nRows, n);
    assert j * n + i < (j + 1) * n;
    DivModOfCell(i, j, n);
  }

  /** Every socket of the grid has a different id. */
  lemma GridIdsDistinct(level: Level, colors: seq<seq<Color>>, sockets: seq<Socket>)
    requires ColorsFit(level, colors) && IsGrid(level, colors, sockets)
    ensures DistinctIds(sockets)
  {
    forall a, b | 0 <= a < |sockets| && 0 <= b < |sockets| && a != b
      ensures sockets[a].id != sockets[b].id
    {
      var n := level.nCols;
      CellOfIndex(a, n, level.nRows);
      CellOfIndex(b, n, level.nRows);
      IndexCellsDistinct(a, b, n);
      CellIdInjective(a % n, a / n, b % n, b / n);
    }
  }

  /** No two sockets of the grid share a cell. */
  lemma GridCellsDistinct(level: Level, colors: seq<seq<Color>>, sockets: seq<Socket>)
    requires ColorsFit(level, colors) && IsGrid(level, colors, sockets)
    ensures forall a, b :: 0 <= a < |sockets| && 0 <= b < |sockets| && a != b ==>
      sockets[a].col != sockets[b].col || sockets[a].row != sockets[b].row
  {
    forall a, b | 0 <= a < |sockets| && 0 <= b < |sockets| && a != b
      ensures sockets[a].col != sockets[b].col || sockets[a].row != sockets[b].row
    {
      var n := level.nCols;
      CellOfIndex(a, n, level.nRows);
      CellOfIndex(b, n, level.nRows);
      IndexCellsDistinct(a, b, n);
    }
  }

  lemma IndexCellsDistinct(a: int, b: int, n: int)
    requires n > 0 && a != b
    ensures a % n != b % n || a / n != b / n
  {
    assert a == (a / n) * n + a % n;
    assert b == (b / n) * n + b % n;
  }

  /** A socket is pinned exactly when its id is among the level's pinned ids. */
  lemma GridPinned(level: Level, colors: seq<seq<Color>>, sockets: seq<Socket>, k: int)
    requires ColorsFit(level, colors) && IsGrid(level, colors, sockets)
    requires 0 <= k < |sockets|
    ensures sockets[k].pinned <==> sockets[k].id in level.pinnedTileIds
  {}

  /**
   * Each socket starts with its own tile: same id, same pinned flag, normal
   * size and not yet placed. A freshly built board is therefore solved.
   */
  lemma GridStartsSolved(level: Level, colors: seq<seq<Color>>, sockets: seq<Socket>)
    requires ColorsFit(level, colors) && IsGrid(level, colors, sockets)
    ensures AllHome(sockets)
    ensures forall k :: 0 <= k < |sockets| ==>
      sockets[k].tile.pinned == sockets[k].pinned && sockets[k].tile.scale == 1.0 &&
      sockets[k].tile.x.None? && sockets[k].tile.y.None?
  {}

  /** An index of a grid with `nRows * nCols` cells names a column and a row inside it. */
  lemma CellOfIndex(k: int, nCols: int, nRows: int)
    requires nCols >= 0 && nRows >= 0 && 0 <= k < nRows * nCols
    ensures nCols > 0 && 0 <= k % nCols < nCols && 0 <= k / nCols < nRows
  {
    MulIntStrictCancel(k / nCols, nRows, nCols);
  }

  /** Index `j * n + i` of a cell inside an `n`-column, `rows`-row grid is below `rows * n`. */
  lemma CellIndexInGrid(i: int, j: int, n: int, rows: int)
    requires 0 <= i < n && 0 <= j < rows
    ensures j * n + i + 1 <= rows * n
  {
    MulIntMonotone(j + 1, rows, n);
    assert (j + 1) * n == j * n + n;
  }

  /** Index `j * n + i` of a row-major grid with `n` columns is column `i`, row `j`. */
  lemma DivModOfCell(i: int, j: int, n: int)
    requires n > 0 && 0 <= i < n && j >= 0
    ensures (j * n + i) / n == j && (j * n + i) % n == i
  {
    var k := j * n + i;
    var q, r := k / n, k % n;
    assert k == q * n + r;
    MulIntStrictCancel(q, j + 1, n);
    MulIntStrictCancel(j, q + 1, n);
  }
}
