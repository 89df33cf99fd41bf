/**
 * Setting up and restarting a game: the gameboard built from a level
 * (`new Gameboard(...)` over `level.createSockets()`, then the first
 * `setNominalBoardSize`), and `start`, which resets the move counter,
 * shuffles the unpinned tiles and activates the controller.
 */
module Game {
  import opened Wrappers
  import opened Geometry
  import opened Tiles
  import opened Sockets
  import opened Events
  import opened Levels
  import opened Board
  import opened Shuffle
  import opened Interaction
  import opened Session

  /**
   * A new, sized gameboard: one socket per grid cell, pinned exactly where
   * the level says, every socket holding its own tile at its centre. It is
   * valid and already solved.
   */
  method NewGameboard(level: Level, colors: seq<seq<Color>>, nominalWidth: real, nominalHeight: real)
    returns (g: Gameboard)
    requires ColorsFit(level, colors) && level.nCols >= 1 && level.nRows >= 1
    ensures Valid(g) && CheckForWin(g)
    ensures g.nCols == level.nCols && g.nRows == level.nRows && |g.sockets| == level.nRows * level.nCols
    ensures g.dims == TileDims(nominalWidth, nominalHeight, level.nCols, level.nRows)
    ensures forall k :: 0 <= k < |g.sockets| ==> (g.sockets[k].pinned <==> g.sockets[k].id in level.pinnedTileIds)
    ensures forall k :: 0 <= k < |g.sockets| ==>
      Centre(g.sockets[k].tile) == Some(Position(g.sockets[k], g.dims)) && g.sockets[k].tile.scale == 1.0
  {
    var sockets := CreateSockets(level, colors);
    var built := Gameboard(level.nCols, level.nRows, sockets, Dims(0, 0), 0);
    BuiltIsValid(level, colors, built);
    g := SetNominalBoardSize(built, nominalWidth, nominalHeight);
    SizingKeepsValid(built, nominalWidth, nominalHeight);
  }

  /** The board over a freshly built grid is valid, solved, and pinned where the level says. */
  lemma BuiltIsValid(level: Level, colors: seq<seq<Color>>, g: Gameboard)
    requires ColorsFit(level, colors) && level.nCols >= 1 && level.nRows >= 1
    requires g.nCols == level.nCols && g.nRows == level.nRows && IsGrid(level, colors, g.sockets)
    ensures Valid(g) && CheckForWin(g)
    ensures forall k :: 0 <= k < |g.sockets| ==> (g.sockets[k].pinned <==> g.sockets[k].id in level.pinnedTileIds)
  {
    var sockets := g.sockets;
    GridIdsDistinct(level, colors, sockets);
    GridStartsSolved(level, colors, sockets);
    GridCellsDistinct(level, colors, sockets);
    forall k | 0 <= k < |sockets|
      ensures sockets[k].pinned <==> sockets[k].id in level.pinnedTileIds
    {
      GridPinned(level, colors, sockets, k);
    }
    assert TileIds(sockets) == SocketIds(sockets);
  }

  /**
   * `start` on a session whose controller holds no gesture: moves reset to
   * zero, unpinned tiles shuffled, controller active. With at least two
   * unpinned sockets on a solved board, the started board is not solved.
   */
  method StartSession(s: Session, draws: seq<int>) returns (s': Session)
    requires Inv(s) && s.ctl.current.None? && s.ctl.selected.None?
    requires SattoloDraws(draws, |Unpinned(s.board.sockets)|)
    ensures Ready(s')
    ensures s'.board.numberOfMoves == 0
    ensures SameSockets(s.board, s'.board) && s'.board.dims == s.board.dims
    ensures multiset(TileIds(s'.board.sockets)) == multiset(TileIds(s.board.sockets))
    ensures |Unpinned(s.board.sockets)| >= 2 && CheckForWin(s.board) ==> !CheckForWin(s'.board)
  {
    var g := Start(s.board, draws);
    s' := Session(g, Activate(s.ctl));
  }

  /** A fresh board with a fresh controller satisfies the session invariant and holds no gesture. */
  lemma FreshSessionIdle(g: Gameboard)
    requires Valid(g)
    ensures var s := Session(g, Initial);
      Inv(s) && !s.ctl.active && s.ctl.current.None? && s.ctl.selected.None?
  {}

  /**
   * An input that wins the game (the controller goes from active to
   * inactive) leaves no gesture current and none selected, so `start` can
   * run again.
   */
  lemma WinLeavesIdle(s: Session, input: Input)
    requires Inv(s) && s.ctl.active
    ensures !Step(s, input).ctl.active ==> Step(s, input).ctl.current.None? && Step(s, input).ctl.selected.None?
  {
    if Step(s, input).ctl.active {
      return;
    }
    match input
    case Down(_, _) =>
      assert false;
    case Move(_) =>
      assert false;
    case Cancel =>
      CancelNeverSwaps(s.ctl, s.board);
      assert false;
    case Up =>
  }
}
