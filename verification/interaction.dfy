/**
 * The gesture controller (src/gameboard/GameboardInteraction.js) as an
 * immutable state record and one step function per input. DOM listeners,
 * touch identifiers and the SVG coordinate transform are abstracted away: a
 * gesture begins on a target element with its grab offset already in tile
 * coordinates, and pointer moves arrive in board coordinates. The board is
 * only read; the one write the controller makes itself, the dragged tile's
 * position, is returned as `moved` and happens before the emitted outcomes.
 */
module Interaction {
  import opened Wrappers
  import opened Geometry
  import opened Tiles
  import opened Sockets
  import opened Events
  import opened Board

  /**
   * A gesture: a serial `key` standing for the gesture object's identity, the
   * grabbed tile, the socket it was grabbed from, the grab offset and whether
   * the tile has been dragged outside that socket.
   */
  datatype Gesture = Gesture(key: nat, tileId: string, origin: nat, grabOffset: Point, draggedOverOtherTiles: bool)

  /** `active`, `currentGesture`, `selectedTileGesture`, and the key the next gesture gets. */
  datatype Controller = Controller(active: bool, current: Option<Gesture>, selected: Option<Gesture>, nextKey: nat)

  /** The element a gesture begins on: the background, or a tile element with its bound datum (a tile id). */
  datatype Target = Background | TileElement(datum: Option<string>)

  /** The controller's own write to a tile's `x` and `y`. */
  datatype TileMove = TileMove(tileId: string, to: Point)

  /** What one input does: the next controller, the tile position written (if any) and the outcomes emitted, in order. */
  datatype Reaction = Reaction(ctl: Controller, moved: Option<TileMove>, outcomes: seq<Outcome>)

  /** The abstract inputs: pointer down on a target, pointer move, pointer up, and touch cancel. */
  datatype Input = Down(target: Target, grabOffset: Point) | Move(pointer: Point) | Up | Cancel

  /** The constructor's state: inactive, with no current and no selected gesture. */
  const Initial: Controller := Controller(false, None, None, 0)

  /** `activate`: only the flag changes. */
  function Activate(c: Controller): (c': Controller)
    ensures c'.active
    ensures c'.current == c.current && c'.selected == c.selected && c'.nextKey == c.nextKey
  {
    c.(active := true)
  }

  /** `deactivate`: only the flag changes. */
  function Deactivate(c: Controller): (c': Controller)
    ensures !c'.active
    ensures c'.current == c.current && c'.selected == c.selected && c'.nextKey == c.nextKey
  {
    c.(active := false)
  }

  /** Every socket index the controller holds is a socket of `g`. */
  predicate Fits(c: Controller, g: Gameboard) {
    (c.current.Some? ==> c.current.value.origin < |g.sockets|) &&
    (c.selected.Some? ==> c.selected.value.origin < |g.sockets|)
  }

  /** No change at all. */
  function Quiet(c: Controller): Reaction {
    Reaction(c, None, [])
  }

  /** The socket a pointer-down on `target` would grab from, when it starts a gesture. */
  function Grab(c: Controller, g: Gameboard, target: Target): (r: Option<nat>)
    ensures r.Some? ==> r.value < |g.sockets|
    ensures r.Some? <==>
      c.active && c.current.None? && target.TileElement? && target.datum.Some? &&
      SocketHoldingTile(g, target.datum.value).Some? &&
      !g.sockets[SocketHoldingTile(g, target.datum.value).value].tile.pinned
    ensures r.Some? ==> r == SocketHoldingTile(g, target.datum.value)
  {
    if !c.active || c.current.Some? then None
    else match target
      case Background => None
      case TileElement(datum) =>
        if datum.None? then None
        else
          var s := SocketHoldingTile(g, datum.value);
          if s.None? || g.sockets[s.value].tile.pinned then None else s
  }

  /**
   * `onBeginGesture` and `onBeginGestureInTileEl`: ignored while inactive or
   * while another gesture is current, and for the background, a tile element
   * without data or a pinned tile. Otherwise a fresh, not-yet-dragged gesture
   * becomes current and `beginTileGesture` is emitted.
   */
  function BeginGesture(c: Controller, g: Gameboard, target: Target, grabOffset: Point): (r: Reaction)
    ensures Grab(c, g, target).None? ==> r == Quiet(c)
    ensures Grab(c, g, target).Some? ==>
      var id := target.datum.value;
      && r.ctl.current == Some(Gesture(c.nextKey, id, Grab(c, g, target).value, grabOffset, false))
      && r.ctl.active == c.active && r.ctl.selected == c.selected && r.ctl.nextKey == c.nextKey + 1
      && r.moved.None? && r.outcomes == [BeginTileGesture(id)]
  {
    match Grab(c, g, target)
    case None => Quiet(c)
    case Some(s) =>
      var id := target.datum.value;
      var gesture := Gesture(c.nextKey, id, s, grabOffset, false);
      Reaction(c.(current := Some(gesture), nextKey := c.nextKey + 1), None, [BeginTileGesture(id)])
  }

  /** The dragged tile's position: the pointer minus the grab offset. */
  function DraggedTo(grabOffset: Point, pointer: Point): Point {
    Point(pointer.x - grabOffset.x, pointer.y - grabOffset.y)
  }

  /** The position is strictly outside the closed bounds of the gesture's original socket. */
  predicate LeavesOrigin(g: Gameboard, gesture: Gesture, p: Point)
    requires gesture.origin < |g.sockets|
  {
    !ContainsPoint(g.sockets[gesture.origin], g.dims, p)
  }

  /**
   * `onContinueGesture`: the tile follows the pointer. Once outside its
   * original socket the gesture is a drag for good, and a pending selection
   * is dropped with `abortTileSelectionBasedSwapGesture` for its socket.
   * `updateTileGesture` is always emitted last. With no current gesture no
   * move listener is attached, so nothing happens.
   */
  function ContinueGesture(c: Controller, g: Gameboard, pointer: Point): (r: Reaction)
    requires Fits(c, g)
    ensures c.current.None? ==> r == Quiet(c)
    ensures c.current.Some? ==>
      var gesture := c.current.value;
      var p := DraggedTo(gesture.grabOffset, pointer);
      var out := LeavesOrigin(g, gesture, p);
      && r.moved == Some(TileMove(gesture.tileId, p))
      && r.ctl.active == c.active && r.ctl.nextKey == c.nextKey
      && r.ctl.current.Some? && r.ctl.current.value.key == gesture.key
      && r.ctl.current.value.origin == gesture.origin && r.ctl.current.value.tileId == gesture.tileId
      && (r.ctl.current.value.draggedOverOtherTiles <==> gesture.draggedOverOtherTiles || out)
      && (out ==> r.ctl.selected.None?)
      && (!out ==> r.ctl.selected == c.selected)
      && |r.outcomes| >= 1 && r.outcomes[|r.outcomes| - 1] == UpdateTileGesture(gesture.tileId)
      && (forall o :: o in r.outcomes ==> o.AbortTileSelectionBasedSwap? || o.UpdateTileGesture?)
      && (forall o :: o in r.outcomes && o.AbortTileSelectionBasedSwap? <==>
            out && c.selected.Some? && o == AbortTileSelectionBasedSwap(c.selected.value.origin))
  {
    match c.current
    case None => Quiet(c)
    case Some(gesture) =>
      var p := DraggedTo(gesture.grabOffset, pointer);
      var out := LeavesOrigin(g, gesture, p);
      var gesture' := gesture.(draggedOverOtherTiles := gesture.draggedOverOtherTiles || out);
      var aborts := if out && c.selected.Some? then [AbortTileSelectionBasedSwap(c.selected.value.origin)] else [];
      var selected := if out then None else c.selected;
      Reaction(c.(current := Some(gesture'), selected := selected), Some(TileMove(gesture.tileId, p)),
               aborts + [UpdateTileGesture(gesture.tileId)])
  }

  /** `gesture.end()`: `currentGesture` is cleared only when it is that same gesture. */
  function EndGesture(c: Controller, key: nat): (c': Controller)
    ensures c'.active == c.active && c'.selected == c.selected && c'.nextKey == c.nextKey
    ensures c'.current.None? || c'.current == c.current
    ensures c'.current.None? <==> c.current.None? || c.current.value.key == key
  {
    if c.current.Some? && c.current.value.key == key then c.(current := None) else c
  }

  /** Where the tile with id `id` currently sits, when it has been positioned. */
  function TileCentre(g: Gameboard, id: string): Option<Point> {
    match SocketHoldingTile(g, id)
    case None => None
    case Some(s) => Centre(g.sockets[s].tile)
  }

  /** `getSocketAtPosition` at the tile's current position: `undefined` while the tile has no position. */
  function DropTarget(g: Gameboard, id: string): (r: Option<nat>)
    ensures r.Some? ==>
      r.value < |g.sockets| && TileCentre(g, id).Some? &&
      ContainsPoint(g.sockets[r.value], g.dims, TileCentre(g, id).value)
  {
    match TileCentre(g, id)
    case None => None
    case Some(p) => SocketAtPosition(g, p)
  }

  /**
   * `onCompleteTileDragGesture`: swap with the socket under the tile when
   * there is one, it is not the original socket and it is not pinned;
   * otherwise abort, passing the gesture's `draggedOverOtherTiles`.
   */
  function CompleteDrag(c: Controller, g: Gameboard, gesture: Gesture): (r: Reaction)
    requires gesture.origin < |g.sockets|
    ensures r.ctl == c && r.moved.None? && |r.outcomes| == 1
    ensures var t := DropTarget(g, gesture.tileId);
      r.outcomes[0].CompleteTileDragBasedSwap? <==>
        t.Some? && t.value != gesture.origin && !g.sockets[t.value].pinned
    ensures r.outcomes[0].CompleteTileDragBasedSwap? ==>
      r.outcomes[0] == CompleteTileDragBasedSwap(gesture.origin, DropTarget(g, gesture.tileId).value)
    ensures !r.outcomes[0].CompleteTileDragBasedSwap? ==>
      r.outcomes[0] == AbortTileDragBasedSwap(gesture.origin, gesture.draggedOverOtherTiles)
  {
    var t := DropTarget(g, gesture.tileId);
    if t.Some? && t.value != gesture.origin && !g.sockets[t.value].pinned then
      Reaction(c, None, [CompleteTileDragBasedSwap(gesture.origin, t.value)])
    else
      Reaction(c, None, [AbortTileDragBasedSwap(gesture.origin, gesture.draggedOverOtherTiles)])
  }

  /**
   * `onCompleteTileSelectionGesture`: with nothing pending the tapped socket
   * becomes the selection; with a selection pending it is cleared, and the
   * two sockets swap when they differ, or the selection aborts when the same
   * socket was tapped again.
   */
  function CompleteTap(c: Controller, gesture: Gesture): (r: Reaction)
    ensures r.ctl.active == c.active && r.ctl.current == c.current && r.ctl.nextKey == c.nextKey
    ensures r.moved.None? && |r.outcomes| == 1
    ensures c.selected.None? ==>
      r.ctl.selected == Some(gesture) && r.outcomes == [CompleteTileSelection(gesture.origin)]
    ensures c.selected.Some? ==> r.ctl.selected.None?
    ensures c.selected.Some? && c.selected.value.origin != gesture.origin ==>
      r.outcomes == [CompleteTileSelectionBasedSwap(c.selected.value.origin, gesture.origin)]
    ensures c.selected.Some? && c.selected.value.origin == gesture.origin ==>
      r.outcomes == [AbortTileSelectionBasedSwap(gesture.origin)]
  {
    match c.selected
    case None =>
      Reaction(c.(selected := Some(gesture)), None, [CompleteTileSelection(gesture.origin)])
    case Some(pending) =>
      var a, b := pending.origin, gesture.origin;
      Reaction(c.(selected := None), None,
               if a != b then [CompleteTileSelectionBasedSwap(a, b)] else [AbortTileSelectionBasedSwap(a)])
  }

  /** `onCompleteGesture`: a drag when the gesture left its socket, a tap otherwise. */
  function CompleteGesture(c: Controller, g: Gameboard, gesture: Gesture): (r: Reaction)
    requires gesture.origin < |g.sockets|
    ensures r.moved.None? && |r.outcomes| == 1
    ensures gesture.draggedOverOtherTiles ==> r == CompleteDrag(c, g, gesture)
    ensures !gesture.draggedOverOtherTiles ==> r == CompleteTap(c, gesture)
  {
    if gesture.draggedOverOtherTiles then CompleteDrag(c, g, gesture) else CompleteTap(c, gesture)
  }

  /**
   * `onCancelGesture`: a dragged gesture aborts as a drag, any other as a
   * selection; the controller is left as it is.
   */
  function CancelGesture(c: Controller, gesture: Gesture): (r: Reaction)
    ensures r.ctl == c && r.moved.None?
    ensures gesture.draggedOverOtherTiles ==> r.outcomes == [AbortTileDragBasedSwap(gesture.origin, true)]
    ensures !gesture.draggedOverOtherTiles ==> r.outcomes == [AbortTileSelection(gesture.origin)]
  {
    if gesture.draggedOverOtherTiles then
      Reaction(c, None, [AbortTileDragBasedSwap(gesture.origin, gesture.draggedOverOtherTiles)])
    else
      Reaction(c, None, [AbortTileSelection(gesture.origin)])
  }

  /**
   * One input. Pointer up and touch cancel reach only the current gesture
   * (its listeners are the only ones attached): `end()` runs first, then the
   * completion or cancellation of that gesture.
   */
  function React(c: Controller, g: Gameboard, input: Input): (r: Reaction)
    requires Fits(c, g)
    ensures Fits(r.ctl, g)
    ensures forall o :: o in r.outcomes ==> o.NamesSocketsBelow(|g.sockets|)
    ensures r.ctl.active == c.active
  {
    match input
    case Down(target, offset) => BeginGesture(c, g, target, offset)
    case Move(pointer) => ContinueGesture(c, g, pointer)
    case Up =>
      if c.current.None? then Quiet(c)
      else CompleteGesture(EndGesture(c, c.current.value.key), g, c.current.value)
    case Cancel =>
      if c.current.None? then Quiet(c)
      else CancelGesture(EndGesture(c, c.current.value.key), c.current.value)
  }

  // ---------------------------------------------------------------------------
  // Properties

  /** While inactive, or while a gesture is in progress, a pointer-down does nothing. */
  lemma BeginIgnoredWhenInactiveOrBusy(c: Controller, g: Gameboard, target: Target, offset: Point)
    requires !c.active || c.current.Some?
    ensures BeginGesture(c, g, target, offset) == Quiet(c)
  {}

  /** A pinned tile, a tile element without data, or the background never starts a gesture. */
  lemma PinnedTileNeverStarts(c: Controller, g: Gameboard, target: Target, offset: Point)
    requires target.Background? || target.datum.None? ||
      (SocketHoldingTile(g, target.datum.value).Some? &&
       g.sockets[SocketHoldingTile(g, target.datum.value).value].tile.pinned)
    ensures BeginGesture(c, g, target, offset) == Quiet(c)
  {}

  /**
   * A gesture that starts is current, not yet dragged, and grabbed from the
   * socket that holds the tile; on a board whose pin flags agree, that socket
   * is unpinned.
   */
  lemma BeginFromUnpinnedSocket(c: Controller, g: Gameboard, target: Target, offset: Point)
    requires PinFlagsAgree(g.sockets)
    requires BeginGesture(c, g, target, offset).ctl.current != c.current
    ensures var gesture := BeginGesture(c, g, target, offset).ctl.current.value;
      && !gesture.draggedOverOtherTiles
      && gesture.origin < |g.sockets| && !g.sockets[gesture.origin].pinned
      && g.sockets[gesture.origin].tile.id == gesture.tileId
  {}

  /** Once a gesture has been dragged outside its socket, further moves keep it dragged. */
  lemma DraggedStaysDragged(c: Controller, g: Gameboard, pointer: Point)
    requires Fits(c, g)
    requires c.current.Some? && c.current.value.draggedOverOtherTiles
    ensures ContinueGesture(c, g, pointer).ctl.current.value.draggedOverOtherTiles
  {}

  /**
   * A pending selection is aborted at most once by a drag: after the move
   * that leaves the socket the selection is gone, so a second move emits no
   * `abortTileSelectionBasedSwapGesture`.
   */
  lemma {:induction false} SelectionAbortedAtMostOnce(c: Controller, g: Gameboard, p1: Point, p2: Point)
    requires Fits(c, g) && c.current.Some?
    ensures var r1 := ContinueGesture(c, g, p1);
      Fits(r1.ctl, g) &&
      var r2 := ContinueGesture(r1.ctl, g, p2);
      (exists o :: o in r1.outcomes && o.AbortTileSelectionBasedSwap?) ==>
        forall o :: o in r2.outcomes ==> !o.AbortTileSelectionBasedSwap?
  {
    var r1 := ContinueGesture(c, g, p1);
    if exists o :: o in r1.outcomes && o.AbortTileSelectionBasedSwap? {
      assert r1.ctl.selected.None?;
    }
  }

  /** Cancellation never swaps and leaves the pending selection alone. */
  lemma CancelNeverSwaps(c: Controller, g: Gameboard)
    requires Fits(c, g)
    ensures var r := React(c, g, Cancel);
      r.ctl.selected == c.selected && r.ctl.current.None? &&
      forall o :: o in r.outcomes ==> !o.IsSwap()
  {}

  /** A swap is never emitted together with another outcome: it is the single outcome of a release. */
  lemma SwapComesAlone(c: Controller, g: Gameboard, input: Input)
    requires Fits(c, g)
    ensures (exists o :: o in React(c, g, input).outcomes && o.IsSwap()) ==> |React(c, g, input).outcomes| == 1
  {}

  /** `end()` of a gesture that is not the current one leaves the controller unchanged; of the current one, clears it. */
  lemma EndOnlyClearsItself(c: Controller, key: nat)
    ensures c.current.Some? && c.current.value.key != key ==> EndGesture(c, key) == c
    ensures c.current.Some? && c.current.value.key == key ==> EndGesture(c, key) == c.(current := None)
  {}

  /** Every tile the controller might hold a gesture for sits in an unpinned socket of `g`. */
  predicate OriginsUnpinned(c: Controller, g: Gameboard)
    requires Fits(c, g)
  {
    (c.current.Some? ==> !g.sockets[c.current.value.origin].pinned) &&
    (c.selected.Some? ==> !g.sockets[c.selected.value.origin].pinned)
  }

  /** A dragged gesture never coexists with a pending selection. */
  predicate DragClearsSelection(c: Controller) {
    c.current.Some? && c.current.value.draggedOverOtherTiles ==> c.selected.None?
  }

  /**
   * On a board whose pin flags agree, no swap outcome ever names a pinned
   * socket: the gesture origins are unpinned and a drag target is checked.
   */
  lemma SwapsAvoidPinned(c: Controller, g: Gameboard, input: Input)
    requires Fits(c, g) && OriginsUnpinned(c, g)
    ensures forall o :: o in React(c, g, input).outcomes && o.IsSwap() ==>
      !g.sockets[o.SwapPair().0].pinned && !g.sockets[o.SwapPair().1].pinned
  {}

  /** Every input keeps the controller's sockets unpinned and a drag free of a pending selection. */
  lemma ReactKeepsOrigins(c: Controller, g: Gameboard, input: Input)
    requires PinFlagsAgree(g.sockets)
    requires Fits(c, g) && OriginsUnpinned(c, g) && DragClearsSelection(c)
    ensures var r := React(c, g, input);
      OriginsUnpinned(r.ctl, g) && DragClearsSelection(r.ctl)
  {
    match input
    case Down(target, offset) =>
      if BeginGesture(c, g, target, offset).ctl.current != c.current {
        BeginFromUnpinnedSocket(c, g, target, offset);
      }
    case _ =>
  }
}
