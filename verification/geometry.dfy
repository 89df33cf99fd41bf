/**
 * Board geometry: the integer tile size derived from the nominal board size,
 * points in board pixel space and closed axis-aligned boxes.
 */
module Geometry {

  /** Width and height of one board tile, in whole pixels (Gameboard.defaultTileDimensions). */
  datatype Dims = Dims(width: int, height: int)

  /** A point in the board's pixel space. */
  datatype Point = Point(x: real, y: real)

  /** A closed box `[xMin, xMax] x [yMin, yMax]` (Socket.bounds). */
  datatype Box = Box(xMin: real, xMax: real, yMin: real, yMax: real)

  /** Closed containment: points on the boundary are inside. */
  predicate InBox(b: Box, p: Point) {
    b.xMin <= p.x <= b.xMax && b.yMin <= p.y <= b.yMax
  }

  /** Strict containment: the point is off every edge of the box. */
  predicate StrictlyInBox(b: Box, p: Point) {
    b.xMin < p.x < b.xMax && b.yMin < p.y < b.yMax
  }

  /** `Math.floor(nominal / n)`, one tile's extent along an axis with `n` cells. */
  function FloorDiv(nominal: real, n: int): (t: int)
    requires n >= 1
    ensures (t * n) as real <= nominal
    ensures nominal - (t * n) as real < n as real
  {
    var nr := n as real;
    var t := (nominal / nr).Floor;
    FloorBounds(nominal, nr, t as real);
    assert (t * n) as real == t as real * nr;
    t
  }

  /** `tr <= nominal / nr < tr + 1` scaled by `nr`. */
  lemma FloorBounds(nominal: real, nr: real, tr: real)
    requires nr > 0.0
    requires tr <= nominal / nr < tr + 1.0
    ensures tr * nr <= nominal < tr * nr + nr
  {
    FloorLower(nominal, nr, tr);
    FloorUpper(nominal, nr, tr);
  }

  lemma FloorLower(nominal: real, nr: real, tr: real)
    requires nr > 0.0
    requires tr <= nominal / nr
    ensures tr * nr <= nominal
  {
    MulMonotone(tr, nominal / nr, nr);
    DivMulCancel(nominal, nr);
  }

  lemma FloorUpper(nominal: real, nr: real, tr: real)
    requires nr > 0.0
    requires nominal / nr < tr + 1.0
    ensures nominal < tr * nr + nr
  {
    MulStrictMonotone(nominal / nr, tr + 1.0, nr);
    MulDistribOne(tr, nr);
    DivMulCancel(nominal, nr);
  }

  lemma DivMulCancel(x: real, n: real)
    requires n > 0.0
    ensures x / n * n == x
  {}

  lemma MulDistribOne(a: real, n: real)
    ensures (a + 1.0) * n == a * n + n
  {}

  lemma MulMonotone(a: real, b: real, c: real)
    requires a <= b && c >= 0.0
    ensures a * c <= b * c
  {}

  lemma MulStrictMonotone(a: real, b: real, c: real)
    requires a < b && c > 0.0
    ensures a * c < b * c
  {}

  /**
   * The tile size `setNominalBoardSize` derives for a grid of `nCols` x `nRows`
   * cells: the board `tileWidth * nCols` wide fits in the nominal width and
   * wastes less than one pixel per column, and likewise for the height.
   */
  function TileDims(nominalWidth: real, nominalHeight: real, nCols: int, nRows: int): (d: Dims)
    requires nCols >= 1 && nRows >= 1
    ensures (d.width * nCols) as real <= nominalWidth
    ensures nominalWidth - (d.width * nCols) as real < nCols as real
    ensures (d.height * nRows) as real <= nominalHeight
    ensures nominalHeight - (d.height * nRows) as real < nRows as real
  {
    Dims(FloorDiv(nominalWidth, nCols), FloorDiv(nominalHeight, nRows))
  }

  /** A tile size is the floor quotient exactly when it satisfies the fit bounds. */
  lemma TileDimsUnique(nominalWidth: real, nominalHeight: real, nCols: int, nRows: int, d: Dims)
    requires nCols >= 1 && nRows >= 1
    requires (d.width * nCols) as real <= nominalWidth < (d.width * nCols + nCols) as real
    requires (d.height * nRows) as real <= nominalHeight < (d.height * nRows + nRows) as real
    ensures d == TileDims(nominalWidth, nominalHeight, nCols, nRows)
  {
    var e := TileDims(nominalWidth, nominalHeight, nCols, nRows);
    StepUnique(d.width, e.width, nCols, nominalWidth);
    StepUnique(d.height, e.height, nRows, nominalHeight);
  }

  lemma StepUnique(a: int, b: int, n: int, v: real)
    requires n >= 1
    requires (a * n) as real <= v < (a * n + n) as real
    requires (b * n) as real <= v < (b * n + n) as real
    ensures a == b
  {
    if a < b {
      assert (a + 1) * n <= b * n by { MulIntMonotone(a + 1, b, n); }
    } else if b < a {
      assert (b + 1) * n <= a * n by { MulIntMonotone(b + 1, a, n); }
    }
  }

  lemma MulIntMonotone(a: int, b: int, n: int)
    requires a <= b && n >= 0
    ensures a * n <= b * n
  {}

  lemma MulIntStrictCancel(a: int, b: int, n: int)
    requires n > 0 && a * n < b * n
    ensures a < b
  {}

  lemma MulStrictCancel(a: real, b: real, w: real)
    requires w > 0.0 && a * w < b * w
    ensures a < b
  {}
}
