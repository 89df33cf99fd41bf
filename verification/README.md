# Hues Amazing: the gameboard core in Dafny

Hues Amazing is a colour-matching tile puzzle. A level is a grid of coloured
tiles, and some of them are pinned in place. The game shuffles the unpinned
tiles, and the player restores the gradient by swapping tiles, either by
dragging one tile onto another or by tapping two tiles in turn. This project
models the parts of the program that decide what happens to the board:

- **Tiles and sockets** (`tiles.dfy`, `sockets.dfy`). A socket is a fixed grid
  cell that holds exactly one tile. A tile has a fixed id, colour and pinned
  flag, plus a position and scale that change.
- **Levels** (`levels.dfy`, `cell_ids.dfy`). This covers the level record and
  `createSockets`, which builds one socket per cell with its home tile and
  pins the sockets whose `"col,row"` id the level lists.
- **The gameboard** (`board.dfy`, `shuffle.dfy`, `geometry.dfy`). This covers
  the tile size derived from the nominal board size, hit-testing, the
  tile-to-socket lookup, swaps, the eight gesture-outcome handlers, the move
  counter, the win check, and the Sattolo-style shuffle of `randomizeTiles`.
- **The gesture controller** (`interaction.dfy`, `events.dfy`). It tells
  drags from taps and turns them into outcomes: begin, update, complete or
  abort a drag swap, select, abort a selection, and complete or abort a
  selection-based swap.
- **The wiring** (`session.dfy`, `game.dfy`). Each controller step is
  followed by the board's handlers for its outcomes, and a win deactivates
  the controller. The start of a game is modelled here: a fresh board, then
  a shuffle and activation.
- **The I Love Hue level parsers** (`pin_patterns.dfy`, `level_parsers.dfy`).
  These cover the catalogue of 42 pin patterns, `getPinLocations`, and
  `createLevelFromILoveHueLevelDescriptor`.

### Modelling decisions

- **Pure steps.** Everything is a pure function over immutable datatypes.
  The controller's event emitter becomes a `Reaction`: the next controller
  state, the tile position the controller itself writes, and the outcomes
  it emits, in order. `Session.Step` applies the write first and then the
  outcomes. The order matters: the controller moves the dragged tile
  (GameboardInteraction.js:95-96) before it emits an abort that snaps a
  selected tile back.
- **Tiles by id, sockets by index.** Tiles are identified by their string
  id, as `getTilesSelection` keys them. Sockets are identified by their index
  in the board's socket sequence. A gesture object's identity, which
  `gesture.end()` compares, is a serial `key`.
- **Integers and reals.** Pixel sizes are integers, as `Math.floor` makes
  them. Positions are reals. `NaN` coordinates are `None`.
- **Inputs in place of effects.** The random draws of `randomizeTiles` and
  the colour table of `computeTileColors` are inputs. The conversion from
  client coordinates to SVG coordinates is abstracted: a grab offset and a
  pointer already in board coordinates.

### Behaviour worth knowing

- **A drag that comes back costs a move.** A drag that leaves its socket is
  marked `draggedOverOtherTiles` for good. If it then lands back on its own
  socket, on a pinned socket or off the board, the abort handler counts one
  move (Gameboard.js:122-124). Touch-cancel after leaving the socket does the
  same. `Session.DragOutAndBackCostsAMove` proves this for the first case.
- **The preview flag is not modelled.** `Level` does not keep
  `showTargetStateBeforeRandomizing` (Level.js:5-12), so it has no effect on
  the model. The parser still computes it.
- **`first` can pin outside the grid.** The `first` pattern pins the same
  cells as `edges` only on grids with at least two rows. On a one-row grid it
  pins row 1, which is outside the grid.

## Model

| member | source | states |
|---|---|---|
| Tiles.NewTile | src/gameboard/Tile.js:3-17 | a new tile keeps the given id, colour and pinned flag, has no position and has scale 1 |
| Tiles.SetX | src/gameboard/Tile.js:23-25 | the `x` setter changes only `x` and keeps the tile's identity |
| Tiles.SetY | src/gameboard/Tile.js:31-33 | the `y` setter changes only `y` and keeps the tile's identity |
| Tiles.SetScale | src/gameboard/Tile.js:39-41 | the `scale` setter changes only the scale |
| Tiles.MoveTo | src/gameboard/Tile.js:19-33 | assigning a position sets both coordinates and keeps identity and scale |
| Tiles.CentreOfMoveTo | src/gameboard/Tile.js:19-33 | after both coordinates are assigned, the tile's centre is the assigned point |
| Sockets.BoundsIsCell | src/gameboard/Socket.js:20-43 | a socket's bounds, its position plus or minus half its dimensions, are exactly its grid cell |
| Sockets.SameCellSameBounds | src/gameboard/Socket.js:34-43 | bounds depend only on column and row, not on the tile held |
| Sockets.ContainsOwnPosition | src/gameboard/Socket.js:55-60 | with a non-negative tile size, a socket contains its own centre |
| Sockets.InteriorIsExclusive | src/gameboard/Socket.js:55-60 | a point strictly inside one socket's cell is contained in no socket of another cell |
| Sockets.SwapTilesWith | src/gameboard/Socket.js:49-53 | the two sockets exchange tiles and keep id, column, row and pinned flag |
| Sockets.SwapTwiceRestores | src/gameboard/Socket.js:49-53 | swapping the same pair twice restores both sockets |
| Geometry.FloorDiv | src/gameboard/Gameboard.js:25-28 | the tile size times the cell count fits in the nominal size and wastes less than one pixel per cell |
| Geometry.TileDims | src/gameboard/Gameboard.js:25-28 | the derived tile width and height satisfy the fit bounds on both axes |
| Geometry.TileDimsUnique | src/gameboard/Gameboard.js:25-28 | the fit bounds determine the tile size: any size that meets them is the floor quotient |
| CellIds.ParseNatOfNatToString | src/Level.js:19 | the decimal rendering of a natural number reads back as that number |
| CellIds.IntToStringInjective | src/Level.js:19 | different integers render differently |
| CellIds.CellIdInjective | src/Level.js:19 | two cells share a `"col,row"` id if and only if they are the same cell |
| Levels.NewLevel | src/Level.js:5-12 | the level's size is `resolution` and its pinned set holds exactly the listed ids |
| Levels.CreateSockets | src/Level.js:14-42 | the result has `nRows * nCols` sockets, and index `j * nCols + i` holds the home socket of column `i`, row `j` |
| Levels.GridCell | src/Level.js:17-29 | the socket at index `j * nCols + i` has column `i`, row `j` and id `i,j` |
| Levels.GridIdsDistinct | src/Level.js:17-29 | no two sockets of the grid share an id |
| Levels.GridCellsDistinct | src/Level.js:17-29 | no two sockets of the grid share a cell |
| Levels.GridPinned | src/Level.js:24 | a socket is pinned if and only if its id is in the level's pinned set |
| Levels.GridStartsSolved | src/Level.js:30-38 | every socket starts with its own tile, which has the socket's pinned flag, no position and scale 1 |
| Board.SetNominalBoardSize | src/gameboard/Gameboard.js:21-48 | the tile size satisfies the fit bounds; every tile sits on its socket's centre at scale 1, with width and height equal to the socket's dimensions; ownership and sockets are unchanged |
| Board.SetNominalBoardSizeIdempotent | src/gameboard/Gameboard.js:21-48 | resizing twice to the same nominal size equals resizing once |
| Board.SizingKeepsValid | src/gameboard/Gameboard.js:21-48 | resizing keeps the board invariant and does not change whether the board is solved |
| Board.SocketAtPosition | src/gameboard/Gameboard.js:72-74 | the result is the first socket in socket order whose closed bounds contain the point, or none when no socket does |
| Board.SocketAtInteriorPoint | src/gameboard/Gameboard.js:72-74 | a point strictly inside a socket's cell hit-tests to that socket |
| Board.SocketHoldingTile | src/gameboard/Gameboard.js:76-78 | the result holds the tile, or there is none and no socket holds it |
| Board.TileIdsDistinct | src/gameboard/Gameboard.js:76-78 | on a valid board no two sockets hold tiles with the same id |
| Board.HeldBy | src/gameboard/Gameboard.js:76-78 | on a valid board the lookup of a socket's own tile returns that socket |
| Board.Swap | src/gameboard/Socket.js:49-53 | on the board, the two sockets exchange tiles and every other socket is untouched |
| Board.SwapSelf | src/gameboard/Socket.js:49-53 | a socket swapped with itself keeps its tile |
| Board.SwapTwice | src/gameboard/Socket.js:49-53 | swapping a pair twice restores the board |
| Board.SwapKeepsBijective | src/gameboard/Socket.js:49-53 | a swap permutes the tile ids and leaves the socket ids alone |
| Board.SwapKeepsValid | src/gameboard/Socket.js:49-53 | swapping two unpinned sockets keeps the board invariant |
| Board.Place | src/gameboard/Gameboard.js:128 | the socket's tile moves to the socket's centre at its current scale, and nothing else changes |
| Board.Settle | src/gameboard/Gameboard.js:136 | the socket's tile moves to the socket's centre and back to scale 1, and nothing else changes |
| Board.SettleKeepsTiles | src/gameboard/Gameboard.js:113 | placing or settling a tile changes no socket's tile id |
| Board.IncrementNumberOfMoves | src/gameboard/Gameboard.js:296-298 | the count goes up by one and nothing else changes |
| Board.MoveHeldTile | src/gameboard/GameboardInteraction.js:95-96 | only the tile with the given id moves, to the given point; ownership, scale and every other socket are unchanged |
| Board.CompleteSwap | src/gameboard/Gameboard.js:96-157 | the two sockets exchange tiles and every other socket is untouched; both tiles settle on their new sockets' centres at scale 1; one move is counted; the win flag is true if and only if every socket holds its own tile |
| Board.Apply | src/gameboard/Gameboard.js:61-70 | each outcome goes to its handler; sockets and tile size are kept; only a swap can report a win |
| Board.ApplyEffects | src/gameboard/Gameboard.js:80-168 | a swap exchanges the two named tiles and counts one move; an aborted drag counts a move if and only if it was dragged over other tiles; every other outcome keeps ownership and the count |
| Board.ApplyKeepsValid | src/gameboard/Gameboard.js:80-168 | every handler keeps the board invariant, given that swaps name unpinned sockets |
| Shuffle.Unpinned | src/gameboard/Gameboard.js:171 | lists the indices of exactly the unpinned sockets, each once, in socket order |
| Shuffle.RandomizeTiles | src/gameboard/Gameboard.js:170-181 | pinned sockets are untouched and the tile multiset is kept; with two or more unpinned sockets every unpinned tile sits on its new socket's centre; from a solved board no unpinned socket keeps its own tile |
| Shuffle.SattoloDeranges | src/gameboard/Gameboard.js:173-177 | after the last step of the swap loop no position holds its own element |
| Shuffle.Start | src/gameboard/Gameboard.js:50-59 | the move count resets to 0, the tiles are shuffled, and with two or more unpinned sockets a solved board becomes unsolved |
| Interaction.Activate | src/gameboard/GameboardInteraction.js:15-17 | the controller becomes active and nothing else changes |
| Interaction.Deactivate | src/gameboard/GameboardInteraction.js:19-21 | the controller becomes inactive and nothing else changes |
| Interaction.Grab | src/gameboard/GameboardInteraction.js:49-73 | a pointer-down grabs a socket if and only if the controller is active and idle and the target is a tile element whose datum is held by a socket with an unpinned tile |
| Interaction.BeginGesture | src/gameboard/GameboardInteraction.js:63-165 | a successful grab makes a fresh, undragged gesture current and emits `beginTileGesture`; otherwise nothing changes |
| Interaction.ContinueGesture | src/gameboard/GameboardInteraction.js:93-110 | the tile moves to the pointer minus the grab offset; leaving the origin's bounds marks the gesture dragged for good and aborts the pending selection, if any, for its socket; `updateTileGesture` is emitted last |
| Interaction.EndGesture | src/gameboard/GameboardInteraction.js:80-90 | the current gesture is cleared if and only if it is the ending one |
| Interaction.DropTarget | src/gameboard/GameboardInteraction.js:176 | the drop target contains the tile's current centre |
| Interaction.CompleteDrag | src/gameboard/GameboardInteraction.js:175-182 | the drag swaps if and only if the target exists, differs from the origin and is unpinned; otherwise it aborts, passing `draggedOverOtherTiles` |
| Interaction.CompleteTap | src/gameboard/GameboardInteraction.js:184-203 | with nothing pending the tap selects; with a selection pending the selection clears, and the tap swaps two different sockets or aborts the selection on the same socket |
| Interaction.CompleteGesture | src/gameboard/GameboardInteraction.js:167-173 | a dragged gesture completes as a drag and any other as a tap |
| Interaction.CancelGesture | src/gameboard/GameboardInteraction.js:205-219 | a cancel emits a drag abort or a selection abort and never changes the controller |
| Interaction.React | src/gameboard/GameboardInteraction.js:49-219 | every input keeps the controller's sockets on the board and names only existing sockets in its outcomes |
| Interaction.BeginIgnoredWhenInactiveOrBusy | src/gameboard/GameboardInteraction.js:50-52 | an inactive or busy controller ignores a pointer-down |
| Interaction.PinnedTileNeverStarts | src/gameboard/GameboardInteraction.js:64-71 | the background, a tile without data or a pinned tile never starts a gesture |
| Interaction.BeginFromUnpinnedSocket | src/gameboard/GameboardInteraction.js:71-79 | a started gesture is undragged and comes from the unpinned socket holding its tile |
| Interaction.DraggedStaysDragged | src/gameboard/GameboardInteraction.js:98-101 | once a gesture is dragged, further moves keep it dragged |
| Interaction.SelectionAbortedAtMostOnce | src/gameboard/GameboardInteraction.js:102-106 | after a move aborts the pending selection, the next move aborts none |
| Interaction.CancelNeverSwaps | src/gameboard/GameboardInteraction.js:205-219 | a cancel clears the current gesture, keeps the selection and emits no swap |
| Interaction.EndOnlyClearsItself | src/gameboard/GameboardInteraction.js:87-89 | `end()` of a gesture that is not current changes nothing; `end()` of the current one clears only it |
| Interaction.SwapsAvoidPinned | src/gameboard/GameboardInteraction.js:177 | no swap outcome names a pinned socket when the controller's sockets are unpinned |
| Interaction.ReactKeepsOrigins | src/gameboard/GameboardInteraction.js:71-203 | every input keeps the controller's sockets unpinned and never leaves a selection pending beside a dragged gesture |
| Session.ApplyMoved | src/gameboard/GameboardInteraction.js:95-96 | the controller's write to the dragged tile keeps ownership, pinned flags and the move count |
| Session.ApplyAll | src/gameboard/Gameboard.js:61-70 | handling outcomes in order keeps the sockets, and only a swap among them can report a win |
| Session.ApplyOne | src/gameboard/Gameboard.js:61-70 | one outcome is handled exactly as its handler does |
| Session.ApplyAllKeepsValid | src/gameboard/Gameboard.js:80-168 | handling outcomes keeps the board invariant when no swap names a pinned socket |
| Session.ApplyMovedKeepsValid | src/gameboard/GameboardInteraction.js:95-96 | moving the dragged tile keeps the board invariant |
| Session.Step | src/gameboard/Gameboard.js:300-309 | one input keeps the sockets; gesture and selection end where the controller's reaction leaves them; an active controller turns inactive if and only if the input emitted a swap that leaves every socket holding its own tile |
| Session.WinIffSolvingSwap | src/gameboard/Gameboard.js:300-305 | applying a reaction's outcomes reports a win if and only if they hold a swap and every socket then holds its own tile |
| Session.StepKeepsInv | src/gameboard/Gameboard.js:96-168 | every input keeps the board valid, the controller's sockets unpinned, and no selection pending beside a drag |
| Session.PinnedNeverMove | src/gameboard/Gameboard.js:96-168 | no input moves a tile out of a pinned socket |
| Session.PressStarts | src/gameboard/GameboardInteraction.js:63-164 | pressing an unpinned tile on a ready board starts an undragged gesture from its socket with the given offset, at no cost |
| Session.TapSelects | src/gameboard/GameboardInteraction.js:196-201 | a tap on an unpinned tile with nothing pending selects its socket, at no cost |
| Session.TapSameTileTwice | src/gameboard/GameboardInteraction.js:190-194 | tapping the same tile twice leaves ownership and the move count as they were, ready again |
| Session.SecondTap | src/gameboard/GameboardInteraction.js:184-194 | a second tap on another socket swaps the two tiles for one move and deactivates the controller if and only if the board is then solved; on the same socket it changes nothing |
| Session.DragOutAndBackCostsAMove | src/gameboard/Gameboard.js:112-125 | a drag that leaves its socket and returns strictly inside it changes no ownership but counts one move |
| Session.DropOnOrigin | src/gameboard/GameboardInteraction.js:175-182 | releasing a dragged tile strictly inside its own socket aborts the drag and counts one move |
| Game.NewGameboard | src/Level.js:14-42 | a new, sized board is valid and solved, is pinned exactly where the level says, and has every tile on its socket's centre at scale 1 |
| Game.BuiltIsValid | src/Level.js:14-42 | the freshly built grid satisfies the board invariant and is solved |
| Game.StartSession | src/gameboard/Gameboard.js:50-59 | starting leaves the session ready with no moves counted, the same tile multiset, and a solved board unsolved |
| Game.FreshSessionIdle | src/gameboard/GameboardInteraction.js:6-13 | a fresh controller on a valid board is inactive and idle and satisfies the session invariant |
| Game.WinLeavesIdle | src/gameboard/Gameboard.js:307-314 | an input that wins leaves no gesture current and none selected, so `start` can run again |
| PinPatterns.Half | src/ILoveHueParsers.js:35 | `Math.floor(width / 2)` is the largest integer whose double does not exceed the width |
| PinPatterns.RowRun | src/ILoveHueParsers.js:7-9 | a column loop pins exactly the cells of its row between its bounds |
| PinPatterns.ColumnsRun | src/ILoveHueParsers.js:40-44 | a row loop pins exactly the listed columns of every row between its bounds |
| PinPatterns.Block | src/ILoveHueParsers.js:95-103 | the nested scan pins exactly the cells of the rectangle that satisfy its condition |
| PinPatterns.NameOf | src/ILoveHueParsers.js:3-383 | every pattern's catalogue key looks up that pattern |
| PinPatterns.EdgesCells | src/ILoveHueParsers.js:95-103 | `edges` pins exactly the border cells of the grid |
| PinPatterns.FirstIsEdges | src/ILoveHueParsers.js:5-17 | with one or more columns and two or more rows, `first` pins the same cells as `edges` |
| PinPatterns.FirstOnOneRow | src/ILoveHueParsers.js:5-17 | on a one-row grid, `first` pins a cell outside the grid that `edges` does not pin |
| PinPatterns.HorizCells | src/ILoveHueParsers.js:50-58 | `horiz` pins exactly the in-grid cells of the even rows |
| PinPatterns.NotEdgesCells | src/ILoveHueParsers.js:60-71 | with two or more rows, `not-edges` pins the four corners and every interior cell |
| PinPatterns.CheckersCells | src/ILoveHueParsers.js:152-160 | `checkers` pins exactly the in-grid cells with an even coordinate sum |
| PinPatterns.Grid22Cells | src/ILoveHueParsers.js:105-113 | `grid-2-2` pins exactly the in-grid cells with both coordinates even |
| PinPatterns.CarpetCells | src/ILoveHueParsers.js:73-81 | a carpet pins exactly the in-grid cells whose column is a multiple of one spacing or whose row is a multiple of the other |
| PinPatterns.NamedCarpets | src/ILoveHueParsers.js:184-212 | `carpet-3-4`, `carpet-4-5`, `carpet-3-3` and `carpet-5-6` are the carpet at their spacings |
| PinPatterns.CenterEdgesIsFullMinusCentre | src/ILoveHueParsers.js:115-150 | `center-edges` pins the cells of `center-edges-full` except the central cell |
| PinPatterns.CrossCells | src/ILoveHueParsers.js:226-236 | `cross` pins exactly the in-grid cells of the central column and the central row |
| PinPatterns.LeftRightCells | src/ILoveHueParsers.js:162-167 | `left-right` pins the first and last column of every row |
| PinPatterns.TopBottomCells | src/ILoveHueParsers.js:129-136 | `top-bottom` pins every column of the first and last row |
| PinPatterns.CentralColumnTrace | src/ILoveHueParsers.js:34-48 | `edges-and-central-column` pins the top row, then columns 0, the central one and the last for each middle row, then the bottom row |
| PinPatterns.CentralColumnAt5x7 | src/ILoveHueParsers.js:34-48 | on a 5 x 7 grid, that pattern pins its cells in this exact order |
| LevelParsers.AddAll | src/ILoveHueParsers.js:390-395 | adding ids to an insertion-ordered set keeps the earlier ids first, adds each new id once, and keeps membership exact |
| LevelParsers.Dedup | src/ILoveHueParsers.js:390-395 | `Array.from` of the set lists each id once, and exactly the ids added |
| LevelParsers.AddAllFresh | src/ILoveHueParsers.js:390-395 | ids with no repeats pass through the set unchanged and in order |
| LevelParsers.Ids | src/ILoveHueParsers.js:392 | each pinned cell becomes its `"col,row"` id, in pin order |
| LevelParsers.GetPinLocations | src/ILoveHueParsers.js:385-396 | an unknown pattern name fails with the "Unrecognized pin pattern" message; otherwise the ids are distinct, and a cell's id is listed if and only if the pattern pins that cell |
| LevelParsers.PinIdsAreCells | src/ILoveHueParsers.js:390-395 | an id is in the deduplicated list if and only if its cell was pinned |
| LevelParsers.CentralColumnIds | src/levels.js:11-19 | the ids of `edges-and-central-column` at 5 x 7, in pin order, are the first hand-written level's pinned ids |
| LevelParsers.CentralColumnMatchesFirstLevel | src/levels.js:11-19 | `getPinLocations("edges-and-central-column", 5, 7)` succeeds with exactly the first hand-written level's pinned ids |
| LevelParsers.GetPinLocationsAsWritten | src/ILoveHueParsers.js:385-396 | the guard as written: catalogue names behave as in `GetPinLocations`, while names inherited from `Object.prototype` pass the guard and pin nothing |
| LevelParsers.ToStringPassesGuard | src/ILoveHueParsers.js:386-388 | `"toString"` passes the as-written guard with no pins, but is rejected once the guard checks only the catalogue's own names |
| LevelParsers.CreateLevelFromDescriptor | src/ILoveHueParsers.js:398-408 | with the corrected guard: fails if and only if the pin pattern is unknown; otherwise it carries over the corner colours and size, lists distinct pins, and shows the target first unless a shuffle preview is asked for |
| LevelParsers.CreateLevelFromDescriptorAsWritten | src/ILoveHueParsers.js:385-408 | with the guard as written: a catalogue name gives the corrected level; a name inherited quietly from `Object.prototype` gives a level with no pins; it fails exactly for the other names |
| LevelParsers.ToStringDescriptorHasNoPins | src/ILoveHueParsers.js:386-388 | a descriptor with pattern `"toString"` gives, as written, a level with no pinned tiles, while the corrected parser rejects it |
| LevelParsers.DescriptorPinsSockets | src/ILoveHueParsers.js:398-408 | a descriptor with a known pattern yields a level; on the grid built from it, a socket is pinned if and only if the pattern pins its cell |

## Left out

- Rendering: D3 selections, SVG transforms, transitions and durations, the
  reveal and hide animations, and `applyTileDimensions`. They draw state the
  model already has and change nothing in it.
- Colour interpolation (`computeTileColors`, `interpolateColors`): it is
  floating-point colour arithmetic done by d3. The colour table is an input,
  and colours are opaque values.
- DOM plumbing: listener attachment and removal, `preventDefault`, walking
  from the event target to its `.tile` ancestor, and
  `getClientCoordinatesRelativeToSvgElement`. These appear as the `Target`
  and the coordinates of an `Input`.
- Touch identifiers and mouse-button filtering (`button === 0`,
  `identifier === pointerId`): an input stands for an event that already
  passed these filters.
- Randomness: `d3.randomUniform` is replaced by a sequence of draws in the
  ranges the source produces.
- The asynchronous part of `onWin` and `start`: the log line, the pause, the
  animations, and the restart. The synchronous deactivation is modelled.
  `Game.WinLeavesIdle` and `Game.StartSession` cover a restart.
- `NaN` arithmetic: a coordinate that was never set is `None`, and the move
  counter starts at 0.
- JavaScript truthiness of `d.extra.shufflePreview`: the flag is a boolean or
  absent, and a descriptor without `extra` is not modelled.
- Pin patterns on degenerate sizes: the catalogue pins whatever cells its
  arithmetic names, including cells outside the grid, and the model keeps
  them. Only the patterns with a lemma above have their cell sets stated.
- src/GameboardMouseInteraction.js, src/Gameboard.js and src/index.js are not
  part of this model: they are an older controller, a wrapper and the page
  entry point.
- Constructor arguments: `Socket`, `Tile` and `Gameboard` disagree about
  their constructor arguments across the files. The model does not reproduce
  the mismatch; it passes the board's tile size to the geometry functions
  explicitly.
- The move counter before `start`: the source leaves it `NaN` until `start`
  runs. The model has no `NaN` and starts it at 0 at construction.
- A pointer-down on a tile no socket holds: in the source `originalSocket`
  would be `undefined` and a later access would throw. The model has no
  exceptions here and ignores that pointer-down instead. Every tile is held
  on a valid board, so the case does not arise from the board's own tiles.
- Board.SetNominalBoardSize: requires `nCols >= 1` and `nRows >= 1`. The
  source divides by them and gets `Infinity` or `NaN` on an empty grid, which
  the model's integers cannot hold. A zero-size board has no sockets, so
  nothing is placed either way.
- Geometry.TileDims: requires `nCols >= 1` and `nRows >= 1`, for the same
  division by zero.
- LevelParsers.CentralColumnMatchesFirstLevel: states set equality with the
  first level's pinned ids, not list equality. LevelParsers.CentralColumnIds
  gives the list in pin order before deduplication.

## Findings

| source | as written | input that shows it | evidently intended | confidence | as-written member | corrected member |
|---|---|---|---|---|---|---|
| src/ILoveHueParsers.js:386-388 | `patternName in pinPatternFunctions` also accepts names inherited from `Object.prototype` | `getPinLocations("toString", 5, 7)` returns `[]` instead of throwing "Unrecognized pin pattern" | only the catalogue's own pattern names are accepted | high, by reading; not executed | LevelParsers.GetPinLocationsAsWritten, LevelParsers.ToStringPassesGuard, LevelParsers.CreateLevelFromDescriptorAsWritten, LevelParsers.ToStringDescriptorHasNoPins | LevelParsers.GetPinLocations, LevelParsers.CreateLevelFromDescriptor |
