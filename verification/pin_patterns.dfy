/**
 * The pin-pattern catalogue of src/ILoveHueParsers.js (`pinPatternFunctions`).
 * Each pattern is a procedure `(width, height, pin)` that calls `pin(col, row)`
 * in a fixed order; here a pattern's trace is the sequence of cells it pins,
 * repeats included, in call order. The loops of the source are the generators
 * `RowRun`, `ColumnsRun` and `Block`; `LoopEnd` is the value a `for` counter
 * keeps once its loop is over, which the patterns that reuse `row` depend on.
 */
module PinPatterns {
  import opened Wrappers

  /** A pinned location `(col, row)`; nothing keeps it inside the grid. */
  datatype Cell = Cell(col: int, row: int)

  /** `Math.floor(x / 2)`: Dafny's division by a positive divisor already rounds down. */
  function Half(x: int): (r: int)
    ensures 2 * r <= x < 2 * r + 2
  {
    x / 2
  }

  /** The counter of `for (v = lo; v < hi; v++)` after the loop: `hi`, or `lo` when the loop never runs. */
  function LoopEnd(lo: int, hi: int): (v: int)
    ensures v >= lo && v >= hi
    ensures v == lo || v == hi
  {
    if lo < hi then hi else lo
  }

  /** `for (let col = lo; col < hi; col++) pin(col, row)`. */
  function RowRun(lo: int, hi: int, row: int): (s: seq<Cell>)
    ensures forall x :: x in s <==> x.row == row && lo <= x.col < hi
    decreases hi - lo
  {
    if lo >= hi then [] else [Cell(lo, row)] + RowRun(lo + 1, hi, row)
  }

  /** `pin(cols[0], row); pin(cols[1], row); ...`. */
  function PinsAt(cols: seq<int>, row: int): (s: seq<Cell>)
    ensures forall x :: x in s <==> x.row == row && x.col in cols
  {
    if cols == [] then [] else [Cell(cols[0], row)] + PinsAt(cols[1..], row)
  }

  /** `for (row = lo; row < hi; row++) { pin(cols[0], row); pin(cols[1], row); ... }`. */
  function ColumnsRun(lo: int, hi: int, cols: seq<int>): (s: seq<Cell>)
    ensures forall x :: x in s <==> lo <= x.row < hi && x.col in cols
    decreases hi - lo
  {
    if lo >= hi then [] else PinsAt(cols, lo) + ColumnsRun(lo + 1, hi, cols)
  }

  /** `for (let col = c0; col < c1; col++) if (p(col, row)) pin(col, row)`. */
  function BlockRow(c0: int, c1: int, row: int, p: (int, int) -> bool): (s: seq<Cell>)
    ensures forall x :: x in s <==> x.row == row && c0 <= x.col < c1 && p(x.col, x.row)
    decreases c1 - c0
  {
    if c0 >= c1 then []
    else (if p(c0, row) then [Cell(c0, row)] else []) + BlockRow(c0 + 1, c1, row, p)
  }

  /** The nested scan `for (row = r0; row < r1; row++) for (col = c0; col < c1; col++) if (p(col, row)) pin(col, row)`. */
  function Block(c0: int, c1: int, r0: int, r1: int, p: (int, int) -> bool): (s: seq<Cell>)
    ensures forall x :: x in s <==> r0 <= x.row < r1 && c0 <= x.col < c1 && p(x.col, x.row)
    decreases r1 - r0
  {
    if r0 >= r1 then [] else BlockRow(c0, c1, r0, p) + Block(c0, c1, r0 + 1, r1, p)
  }

  /** A cell of the `width` x `height` grid. */
  predicate InGrid(x: Cell, width: int, height: int) {
    0 <= x.col < width && 0 <= x.row < height
  }

  /** The 42 named patterns of the catalogue. */
  datatype Pattern =
    | First | LeftRightOpen | EdgesAndCentralColumn | Horiz | NotEdges | Carpet34
    | Diagonal4 | Edges | Grid22 | CenterEdgesFull | TopBottom | CenterEdges
    | Checkers | LeftRight | Center | Corners | Carpet45 | Carpet33 | Carpet56
    | MissingBR | MissingTL | Cross | Nsewc | Nsew | TwoOne | NsewDouble | TwoOneOpp
    | InnerCorners | EwDouble | TlTri | InnerNsew | SmallCross | Tri | Tr2 | Bl
    | EwDoubleInner | Inner21 | Tr | BrTri | TlBr | CrazyCenter | InnerTl

  /** The catalogue's own-property lookup: the pattern a name denotes, if any. */
  function PatternNamed(name: string): (p: Option<Pattern>)
  {
    match name
    case "first" => Some(First)
    case "left-right-open" => Some(LeftRightOpen)
    case "edges-and-central-column" => Some(EdgesAndCentralColumn)
    case "horiz" => Some(Horiz)
    case "not-edges" => Some(NotEdges)
    case "carpet-3-4" => Some(Carpet34)
    case "diagonal-4" => Some(Diagonal4)
    case "edges" => Some(Edges)
    case "grid-2-2" => Some(Grid22)
    case "center-edges-full" => Some(CenterEdgesFull)
    case "top-bottom" => Some(TopBottom)
    case "center-edges" => Some(CenterEdges)
    case "checkers" => Some(Checkers)
    case "left-right" => Some(LeftRight)
    case "center" => Some(Center)
    case "corners" => Some(Corners)
    case "carpet-4-5" => Some(Carpet45)
    case "carpet-3-3" => Some(Carpet33)
    case "carpet-5-6" => Some(Carpet56)
    case "missing-BR" => Some(MissingBR)
    case "missing-TL" => Some(MissingTL)
    case "cross" => Some(Cross)
    case "nsewc" => Some(Nsewc)
    case "nsew" => Some(Nsew)
    case "2-1" => Some(TwoOne)
    case "nsew-double" => Some(NsewDouble)
    case "2-1-opp" => Some(TwoOneOpp)
    case "inner-corners" => Some(InnerCorners)
    case "ew-double" => Some(EwDouble)
    case "tl-tri" => Some(TlTri)
    case "inner-nsew" => Some(InnerNsew)
    case "small-cross" => Some(SmallCross)
    case "tri" => Some(Tri)
    case "tr-2" => Some(Tr2)
    case "bl" => Some(Bl)
    case "ew-double-inner" => Some(EwDoubleInner)
    case "inner-2-1" => Some(Inner21)
    case "tr" => Some(Tr)
    case "br-tri" => Some(BrTri)
    case "tl-br" => Some(TlBr)
    case "crazy-center" => Some(CrazyCenter)
    case "inner-tl" => Some(InnerTl)
    case _ => None
  }

  /** The key a pattern is stored under; looking that key up finds the pattern again. */
  function NameOf(p: Pattern): (name: string)
    ensures PatternNamed(name) == Some(p)
  {
    match p
    case First => "first"
    case LeftRightOpen => "left-right-open"
    case EdgesAndCentralColumn => "edges-and-central-column"
    case Horiz => "horiz"
    case NotEdges => "not-edges"
    case Carpet34 => "carpet-3-4"
    case Diagonal4 => "diagonal-4"
    case Edges => "edges"
    case Grid22 => "grid-2-2"
    case CenterEdgesFull => "center-edges-full"
    case TopBottom => "top-bottom"
    case CenterEdges => "center-edges"
    case Checkers => "checkers"
    case LeftRight => "left-right"
    case Center => "center"
    case Corners => "corners"
    case Carpet45 => "carpet-4-5"
    case Carpet33 => "carpet-3-3"
    case Carpet56 => "carpet-5-6"
    case MissingBR => "missing-BR"
    case MissingTL => "missing-TL"
    case Cross => "cross"
    case Nsewc => "nsewc"
    case Nsew => "nsew"
    case TwoOne => "2-1"
    case NsewDouble => "nsew-double"
    case TwoOneOpp => "2-1-opp"
    case InnerCorners => "inner-corners"
    case EwDouble => "ew-double"
    case TlTri => "tl-tri"
    case InnerNsew => "inner-nsew"
    case SmallCross => "small-cross"
    case Tri => "tri"
    case Tr2 => "tr-2"
    case Bl => "bl"
    case EwDoubleInner => "ew-double-inner"
    case Inner21 => "inner-2-1"
    case Tr => "tr"
    case BrTri => "br-tri"
    case TlBr => "tl-br"
    case CrazyCenter => "crazy-center"
    case InnerTl => "inner-tl"
  }

  /** `carpet-a-b`: every in-grid cell whose column is a multiple of `a` or whose row is a multiple of `b`. */
  function CarpetTrace(width: int, height: int, a: int, b: int): seq<Cell>
    requires a > 0 && b > 0
  {
    Block(0, width, 0, height, (c, r) => c % a == 0 || r % b == 0)
  }

  /** The three-row frame shape shared by `first`, `left-right-open` and `edges-and-central-column`. */
  function Frame(width: int, height: int, middle: seq<Cell>): seq<Cell> {
    RowRun(0, width, 0) + middle + RowRun(0, width, LoopEnd(1, height - 1))
  }

  /** The cells a pattern pins for a `width` x `height` level, in call order. */
  function Trace(p: Pattern, width: int, height: int): seq<Cell> {
    var cc, cr := Half(width), Half(height);
    var w1, h1 := width - 1, height - 1;
    match p
    case First => Frame(width, height, ColumnsRun(1, h1, [0, w1]))
    case LeftRightOpen => Frame(width, height, Block(1, w1, 1, h1, (c, r) => true))
    case EdgesAndCentralColumn => Frame(width, height, ColumnsRun(1, h1, [0, cc, w1]))
    case Horiz => Block(0, width, 0, height, (c, r) => r % 2 == 0)
    case NotEdges =>
      var e := LoopEnd(1, h1);
      [Cell(0, 0), Cell(w1, 0)] + Block(1, w1, 1, h1, (c, r) => true) + [Cell(0, e), Cell(w1, e)]
    case Carpet34 => CarpetTrace(width, height, 3, 4)
    case Diagonal4 =>
      [Cell(0, 0)] + Block(0, width, 0, height, (c, r) => c >= 4 - r && c < width - 4 - (r - h1)) + [Cell(w1, h1)]
    case Edges => Block(0, width, 0, height, (c, r) => c == 0 || r == 0 || c == w1 || r == h1)
    case Grid22 => Block(0, width, 0, height, (c, r) => c % 2 == 0 && r % 2 == 0)
    case CenterEdgesFull =>
      Block(0, width, 0, height, (c, r) => (r == 0 || r == cr || r == h1) && (c == 0 || c == cc || c == w1))
    case TopBottom => RowRun(0, width, 0) + RowRun(0, width, h1)
    case CenterEdges =>
      Block(0, width, 0, height,
            (c, r) => (r == 0 || r == cr || r == h1) && (c == 0 || c == cc || c == w1) && !(r == cr && c == cc))
    case Checkers => Block(0, width, 0, height, (c, r) => (c + r) % 2 == 0)
    case LeftRight => ColumnsRun(0, height, [0, w1])
    case Center => [Cell(0, 0), Cell(w1, 0), Cell(cc, cr), Cell(0, h1), Cell(w1, h1)]
    case Corners => [Cell(0, 0), Cell(w1, 0), Cell(0, h1), Cell(w1, h1)]
    case Carpet45 => CarpetTrace(width, height, 4, 5)
    case Carpet33 => CarpetTrace(width, height, 3, 3)
    case Carpet56 => CarpetTrace(width, height, 5, 6)
    case MissingBR => [Cell(0, 0), Cell(w1, 0), Cell(0, h1)]
    case MissingTL => [Cell(w1, 0), Cell(0, h1), Cell(w1, h1)]
    case Cross => Block(0, width, 0, height, (c, r) => c == cc || r == cr)
    case Nsewc => [Cell(cc, 0), Cell(0, cr), Cell(cc, cr), Cell(w1, cr), Cell(cc, h1)]
    case Nsew => [Cell(cc, 0), Cell(0, cr), Cell(w1, cr), Cell(cc, h1)]
    case TwoOne => [Cell(0, 0), Cell(1, 0), Cell(0, h1)]
    case NsewDouble =>
      [Cell(cc - 1, 0), Cell(cc, 0), Cell(0, cr - 1), Cell(0, cr),
       Cell(w1, cr - 1), Cell(w1, cr), Cell(cc - 1, h1), Cell(cc, h1)]
    case TwoOneOpp => [Cell(width - 2, 0), Cell(w1, 0), Cell(0, h1)]
    case InnerCorners => [Cell(width - 2, 1), Cell(1, height - 2), Cell(width - 2, height - 2)]
    case EwDouble => [Cell(0, cr - 1), Cell(0, cr), Cell(w1, cr - 1), Cell(w1, cr)]
    case TlTri => [Cell(0, 0), Cell(1, 0), Cell(0, 1)]
    case InnerNsew => [Cell(cc, 1), Cell(1, cr), Cell(width - 2, cr), Cell(cc, height - 2)]
    case SmallCross => [Cell(cc, cr - 1), Cell(cc - 1, cr), Cell(cc + 1, cr), Cell(cc, cr + 1)]
    case Tri => [Cell(w1, 0), Cell(0, cr), Cell(w1, h1)]
    case Tr2 => [Cell(width - 2, 0), Cell(w1, 0)]
    case Bl => [Cell(0, h1)]
    case EwDoubleInner => [Cell(1, cr - 1), Cell(1, cr), Cell(width - 2, cr - 1), Cell(width - 2, cr)]
    case Inner21 => [Cell(1, 1), Cell(1, height - 2), Cell(2, height - 2)]
    case Tr => [Cell(w1, 0)]
    case BrTri => [Cell(w1, height - 2), Cell(width - 2, h1), Cell(w1, h1)]
    case TlBr => [Cell(0, 0), Cell(w1, h1)]
    case CrazyCenter => [Cell(cc - 1, cr - 1)]
    case InnerTl => [Cell(1, 1)]
  }

  /** `edges` pins exactly the border cells of the grid. */
  lemma EdgesCells(width: int, height: int, x: Cell)
    ensures x in Trace(Edges, width, height) <==>
      InGrid(x, width, height) && (x.col == 0 || x.row == 0 || x.col == width - 1 || x.row == height - 1)
  {}

  /**
   * `first` pins the same cells as `edges` once the grid has a column and at
   * least two rows: its last loop reuses `row`, which the middle loop left at
   * `height - 1`.
   */
  lemma FirstIsEdges(width: int, height: int, x: Cell)
    requires width >= 1 && height >= 2
    ensures x in Trace(First, width, height) <==> x in Trace(Edges, width, height)
  {
    assert LoopEnd(1, height - 1) == height - 1;
    EdgesCells(width, height, x);
  }

  /** On a one-row grid the middle loop of `first` never runs, so its last loop pins row 1, outside the grid. */
  lemma FirstOnOneRow(width: int)
    requires width >= 1
    ensures Cell(0, 1) in Trace(First, width, 1)
    ensures !InGrid(Cell(0, 1), width, 1)
    ensures Cell(0, 1) !in Trace(Edges, width, 1)
  {
    assert LoopEnd(1, 0) == 1;
  }

  /** `checkers` pins exactly the in-grid cells with an even coordinate sum. */
  lemma CheckersCells(width: int, height: int, x: Cell)
    ensures x in Trace(Checkers, width, height) <==> InGrid(x, width, height) && (x.col + x.row) % 2 == 0
  {}

  /** `grid-2-2` pins exactly the in-grid cells with both coordinates even. */
  lemma Grid22Cells(width: int, height: int, x: Cell)
    ensures x in Trace(Grid22, width, height) <==> InGrid(x, width, height) && x.col % 2 == 0 && x.row % 2 == 0
  {}

  /** `carpet-a-b` pins exactly the in-grid cells with `col % a == 0` or `row % b == 0`. */
  lemma CarpetCells(width: int, height: int, a: int, b: int, x: Cell)
    requires a > 0 && b > 0
    ensures x in CarpetTrace(width, height, a, b) <==> InGrid(x, width, height) && (x.col % a == 0 || x.row % b == 0)
  {}

  /** The four named carpets are `CarpetTrace` at their spacings. */
  lemma NamedCarpets(width: int, height: int)
    ensures Trace(Carpet34, width, height) == CarpetTrace(width, height, 3, 4)
    ensures Trace(Carpet45, width, height) == CarpetTrace(width, height, 4, 5)
    ensures Trace(Carpet33, width, height) == CarpetTrace(width, height, 3, 3)
    ensures Trace(Carpet56, width, height) == CarpetTrace(width, height, 5, 6)
  {}

  /** `center-edges` is `center-edges-full` without the central cell. */
  lemma CenterEdgesIsFullMinusCentre(width: int, height: int, x: Cell)
    ensures x in Trace(CenterEdges, width, height) <==>
      x in Trace(CenterEdgesFull, width, height) && x != Cell(Half(width), Half(height))
  {}

  /** `horiz` pins exactly the in-grid cells of the even rows. */
  lemma HorizCells(width: int, height: int, x: Cell)
    ensures x in Trace(Horiz, width, height) <==> InGrid(x, width, height) && x.row % 2 == 0
  {}

  /** `cross` pins exactly the in-grid cells of the central column and the central row. */
  lemma CrossCells(width: int, height: int, x: Cell)
    ensures x in Trace(Cross, width, height) <==>
      InGrid(x, width, height) && (x.col == Half(width) || x.row == Half(height))
  {}

  /** `left-right` pins the first and last column of every row. */
  lemma LeftRightCells(width: int, height: int, x: Cell)
    ensures x in Trace(LeftRight, width, height) <==>
      0 <= x.row < height && (x.col == 0 || x.col == width - 1)
  {}

  /** `top-bottom` pins every column of the first and the last row. */
  lemma TopBottomCells(width: int, height: int, x: Cell)
    ensures x in Trace(TopBottom, width, height) <==>
      0 <= x.col < width && (x.row == 0 || x.row == height - 1)
  {}

  /**
   * `not-edges` pins the two top corners, every interior cell, and the two
   * cells of the row its middle loop leaves `row` at: the last row once the
   * grid has at least two rows.
   */
  lemma NotEdgesCells(width: int, height: int, x: Cell)
    requires height >= 2
    ensures x in Trace(NotEdges, width, height) <==>
      ((x.row == 0 || x.row == height - 1) && (x.col == 0 || x.col == width - 1)) ||
      (1 <= x.row < height - 1 && 1 <= x.col < width - 1)
  {
    assert LoopEnd(1, height - 1) == height - 1;
  }

  /** Row `r` of the middle part of `edges-and-central-column` on a 5-column grid. */
  function CentralColumnRow(r: int): seq<Cell> {
    [Cell(0, r), Cell(2, r), Cell(4, r)]
  }

  /** A full row of a 5-column grid. */
  function FullRow5(r: int): seq<Cell> {
    [Cell(0, r), Cell(1, r), Cell(2, r), Cell(3, r), Cell(4, r)]
  }

  lemma PinsAt3(a: int, b: int, c: int, r: int)
    ensures PinsAt([a, b, c], r) == [Cell(a, r), Cell(b, r), Cell(c, r)]
  {
    assert [a, b, c][1..] == [b, c];
    assert [b, c][1..] == [c];
    assert [c][1..] == [];
    assert PinsAt([c], r) == [Cell(c, r)];
    assert PinsAt([b, c], r) == [Cell(b, r), Cell(c, r)];
  }

  lemma RowRun5(r: int)
    ensures RowRun(0, 5, r) == FullRow5(r)
  {
    assert RowRun(5, 5, r) == [];
    assert RowRun(4, 5, r) == [Cell(4, r)];
    assert RowRun(3, 5, r) == [Cell(3, r), Cell(4, r)];
    assert RowRun(2, 5, r) == [Cell(2, r), Cell(3, r), Cell(4, r)];
  }

  /** Rows 1 to 5 of `edges-and-central-column` on a 5 x 7 grid pin columns 0, 2 and 4. */
  lemma CentralColumnMiddle()
    ensures ColumnsRun(1, 6, [0, 2, 4]) ==
      CentralColumnRow(1) + (CentralColumnRow(2) + (CentralColumnRow(3) +
        (CentralColumnRow(4) + (CentralColumnRow(5) + []))))
  {
    PinsAt3(0, 2, 4, 1);
    PinsAt3(0, 2, 4, 2);
    PinsAt3(0, 2, 4, 3);
    PinsAt3(0, 2, 4, 4);
    PinsAt3(0, 2, 4, 5);
    assert ColumnsRun(6, 6, [0, 2, 4]) == [];
  }

  /**
   * `edges-and-central-column` on a 5 x 7 grid, call by call: the top row,
   * columns 0, 2 and 4 of rows 1 to 5, then the bottom row.
   */
  lemma CentralColumnAt5x7()
    ensures Trace(EdgesAndCentralColumn, 5, 7) ==
      FullRow5(0) +
      (CentralColumnRow(1) + (CentralColumnRow(2) + (CentralColumnRow(3) +
        (CentralColumnRow(4) + (CentralColumnRow(5) + []))))) +
      FullRow5(6)
  {
    CentralColumnFrame();
    CentralColumnMiddle();
    RowRun5(0);
    RowRun5(6);
  }

  lemma CentralColumnFrame()
    ensures Trace(EdgesAndCentralColumn, 5, 7) ==
      RowRun(0, 5, 0) + ColumnsRun(1, 6, [0, 2, 4]) + RowRun(0, 5, 6)
  {
    CentralColumnTrace(5, 7);
    assert Half(5) == 2;
    assert LoopEnd(1, 6) == 6;
  }

  /** `edges-and-central-column` is the frame around columns 0, the central one and the last. */
  lemma CentralColumnTrace(width: int, height: int)
    ensures Trace(EdgesAndCentralColumn, width, height) ==
      Frame(width, height, ColumnsRun(1, height - 1, [0, Half(width), width - 1]))
  {}
}
