/**
 * Sockets (src/gameboard/Socket.js): the fixed grid cells. A socket's id,
 * column, row and pinned flag never change; it holds exactly one tile, and
 * tiles change hands only through `SwapTilesWith`. The board tile size is
 * passed in explicitly instead of being read through a back-reference.
 */
module Sockets {
  import opened Geometry
  import opened Tiles

  datatype Socket = Socket(id: string, col: int, row: int, pinned: bool, tile: Tile)

  /** The socket fields that never change after construction. */
  predicate SameIdentity(a: Socket, b: Socket) {
    a.id == b.id && a.col == b.col && a.row == b.row && a.pinned == b.pinned
  }

  /** Every socket holds the tile whose id is its own id: the board is solved. */
  predicate AllHome(ss: seq<Socket>) {
    forall k :: 0 <= k < |ss| ==> ss[k].tile.id == ss[k].id
  }

  /** No two sockets share an id. */
  predicate DistinctIds(ss: seq<Socket>) {
    forall a, b :: 0 <= a < |ss| && 0 <= b < |ss| && a != b ==> ss[a].id != ss[b].id
  }

  /** The `position` getter: the centre of the socket's grid cell. */
  function Position(s: Socket, d: Dims): Point {
    Point((s.col as real + 0.5) * d.width as real, (s.row as real + 0.5) * d.height as real)
  }

  /** The `dimensions` getter: every socket is one board tile in size. */
  function Dimensions(s: Socket, d: Dims): Dims {
    d
  }

  /** The `bounds` getter: the box of the socket's dimensions centred on its position. */
  function Bounds(s: Socket, d: Dims): Box {
    var p := Position(s, d);
    var dims := Dimensions(s, d);
    Box(p.x - dims.width as real / 2.0, p.x + dims.width as real / 2.0,
        p.y - dims.height as real / 2.0, p.y + dims.height as real / 2.0)
  }

  /** `containsPoint`: closed containment in the socket's bounds. */
  predicate ContainsPoint(s: Socket, d: Dims, p: Point) {
    InBox(Bounds(s, d), p)
  }

  /** The grid cell `[col*w, (col+1)*w] x [row*h, (row+1)*h]` of a socket. */
  function Cell(s: Socket, d: Dims): Box {
    Box(s.col as real * d.width as real, (s.col + 1) as real * d.width as real,
        s.row as real * d.height as real, (s.row + 1) as real * d.height as real)
  }

  /** A socket's bounds are exactly its grid cell. */
  lemma BoundsIsCell(s: Socket, d: Dims)
    ensures Bounds(s, d) == Cell(s, d)
  {
    var w, h := d.width as real, d.height as real;
    assert (s.col as real + 0.5) * w - w / 2.0 == s.col as real * w;
    assert (s.col as real + 0.5) * w + w / 2.0 == (s.col + 1) as real * w;
    assert (s.row as real + 0.5) * h - h / 2.0 == s.row as real * h;
    assert (s.row as real + 0.5) * h + h / 2.0 == (s.row + 1) as real * h;
  }

  /** Bounds depend only on the socket's cell, not on the tile it holds. */
  lemma SameCellSameBounds(a: Socket, b: Socket, d: Dims)
    requires a.col == b.col && a.row == b.row
    ensures Bounds(a, d) == Bounds(b, d)
  {}

  /** With a non-negative tile size a socket contains its own position. */
  lemma ContainsOwnPosition(s: Socket, d: Dims)
    requires d.width >= 0 && d.height >= 0
    ensures ContainsPoint(s, d, Position(s, d))
  {}

  /**
   * With a positive tile size, a point strictly inside one socket's cell lies
   * in no socket of a different cell; only boundary points are shared.
   */
  lemma InteriorIsExclusive(s: Socket, t: Socket, d: Dims, p: Point)
    requires d.width > 0 && d.height > 0
    requires StrictlyInBox(Bounds(s, d), p)
    requires ContainsPoint(t, d, p)
    ensures t.col == s.col && t.row == s.row
  {
    BoundsIsCell(s, d);
    BoundsIsCell(t, d);
    SameCellIndex(s.col, t.col, d.width as real, p.x);
    SameCellIndex(s.row, t.row, d.height as real, p.y);
  }

  /** One axis of `InteriorIsExclusive`. */
  lemma SameCellIndex(i: int, j: int, w: real, v: real)
    requires w > 0.0
    requires i as real * w < v < (i + 1) as real * w
    requires j as real * w <= v <= (j + 1) as real * w
    ensures i == j
  {
    var lo, hi := i as real * w, (i + 1) as real * w;
    var lo', hi' := j as real * w, (j + 1) as real * w;
    assert lo' < hi by { assert lo' <= v < hi; }
    assert lo < hi' by { assert lo < v <= hi'; }
    MulStrictCancel(j as real, (i + 1) as real, w);
    MulStrictCancel(i as real, (j + 1) as real, w);
  }

  /**
   * `swapTilesWith`: the two sockets exchange tiles and keep everything
   * else. Swapping back restores both sockets.
   */
  function SwapTilesWith(a: Socket, b: Socket): (r: (Socket, Socket))
    ensures SameIdentity(r.0, a) && SameIdentity(r.1, b)
    ensures r.0.tile == b.tile && r.1.tile == a.tile
  {
    (a.(tile := b.tile), b.(tile := a.tile))
  }

  /** Swapping the same pair twice restores both sockets. */
  lemma SwapTwiceRestores(a: Socket, b: Socket)
    ensures var r := SwapTilesWith(a, b); SwapTilesWith(r.0, r.1) == (a, b)
  {}
}
