/**
 * The outcomes the gesture controller emits and the gameboard consumes
 * (the eight `emitter.emit` names of GameboardInteraction.js, as a tagged
 * union instead of an event emitter). Sockets are named by their index in
 * the board's socket sequence, tiles by their id.
 */
module Events {
  datatype Outcome =
    | BeginTileGesture(tileId: string)
    | UpdateTileGesture(tileId: string)
    | CompleteTileDragBasedSwap(origin: nat, target: nat)
    | AbortTileDragBasedSwap(origin: nat, draggedOverOtherTiles: bool)
    | CompleteTileSelection(socket: nat)
    | AbortTileSelection(socket: nat)
    | CompleteTileSelectionBasedSwap(first: nat, second: nat)
    | AbortTileSelectionBasedSwap(socket: nat)
  {
    /** The two outcomes that exchange tiles between sockets. */
    predicate IsSwap() {
      CompleteTileDragBasedSwap? || CompleteTileSelectionBasedSwap?
    }

    /** The two sockets a swap outcome exchanges. */
    function SwapPair(): (p: (nat, nat))
      requires IsSwap()
      ensures forall n :: NamesSocketsBelow(n) ==> p.0 < n && p.1 < n
    {
      if CompleteTileDragBasedSwap? then (origin, target) else (first, second)
    }

    /** Every socket index the outcome names is below `n`. */
    predicate NamesSocketsBelow(n: int) {
      match this
      case BeginTileGesture(_) => true
      case UpdateTileGesture(_) => true
      case CompleteTileDragBasedSwap(a, b) => a < n && b < n
      case AbortTileDragBasedSwap(a, _) => a < n
      case CompleteTileSelection(a) => a < n
      case AbortTileSelection(a) => a < n
      case CompleteTileSelectionBasedSwap(a, b) => a < n && b < n
      case AbortTileSelectionBasedSwap(a) => a < n
    }
  }
}
