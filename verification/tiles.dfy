/**
 * Tiles (src/gameboard/Tile.js): the movable coloured pieces. A tile's id,
 * colour and pinned flag are fixed when it is created; only its centre
 * position and its scale change.
 */
module Tiles {
  import opened Wrappers
  import opened Geometry

  /** A colour value, opaque to the model (a d3 colour in the source). */
  type Color = string

  /**
   * `x` and `y` are `None` while they are JavaScript's initial `NaN`;
   * `scale` is 1 for a resting tile and larger while it is grabbed or selected.
   */
  datatype Tile = Tile(id: string, color: Color, pinned: bool, x: Option<real>, y: Option<real>, scale: real)

  /** The tile fields that never change after construction. */
  predicate SameIdentity(a: Tile, b: Tile) {
    a.id == b.id && a.color == b.color && a.pinned == b.pinned
  }

  /** A freshly constructed tile: unplaced, at normal size. */
  function NewTile(id: string, color: Color, pinned: bool): (t: Tile)
    ensures t.id == id && t.color == color && t.pinned == pinned
    ensures t.x == None && t.y == None
    ensures t.scale == 1.0
  {
    Tile(id, color, pinned, None, None, 1.0)
  }

  /** The `x` setter: only `x` changes. */
  function SetX(t: Tile, x: real): (r: Tile)
    ensures SameIdentity(r, t) && r.x == Some(x) && r.y == t.y && r.scale == t.scale
  {
    t.(x := Some(x))
  }

  /** The `y` setter: only `y` changes. */
  function SetY(t: Tile, y: real): (r: Tile)
    ensures SameIdentity(r, t) && r.y == Some(y) && r.x == t.x && r.scale == t.scale
  {
    t.(y := Some(y))
  }

  /** The `scale` setter: only `scale` changes. */
  function SetScale(t: Tile, scale: real): (r: Tile)
    ensures SameIdentity(r, t) && r.scale == scale && r.x == t.x && r.y == t.y
  {
    t.(scale := scale)
  }

  /** `Object.assign(tile, position)`: both coordinates, through the two setters. */
  function MoveTo(t: Tile, p: Point): (r: Tile)
    ensures SameIdentity(r, t) && r.x == Some(p.x) && r.y == Some(p.y) && r.scale == t.scale
  {
    SetY(SetX(t, p.x), p.y)
  }

  /** The tile's centre, when both coordinates have been set. */
  function Centre(t: Tile): Option<Point> {
    if t.x.Some? && t.y.Some? then Some(Point(t.x.value, t.y.value)) else None
  }

  /** The derived `width` getter: the board tile width scaled by the tile's scale. */
  function Width(t: Tile, d: Dims): real {
    t.scale * d.width as real
  }

  /** The derived `height` getter. */
  function Height(t: Tile, d: Dims): real {
    t.scale * d.height as real
  }

  /** Setting the coordinates and then reading the centre gives the point back. */
  lemma CentreOfMoveTo(t: Tile, p: Point)
    ensures Centre(MoveTo(t, p)) == Some(p)
  {}
}
