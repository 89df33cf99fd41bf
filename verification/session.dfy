/**
 * A play session: the gameboard and its gesture controller wired together
 * the way `Gameboard.attachEventListeners` subscribes the board's handlers to
 * the controller's emitter. An input runs the controller's step; the tile
 * position the controller writes lands first, then each emitted outcome is
 * handled in order, and a win deactivates the controller (the first,
 * synchronous, statement of `onWin`).
 */
module Session {
  import opened Wrappers
  import opened Geometry
  import opened Tiles
  import opened Sockets
  import opened Events
  import opened Board
  import opened Interaction

  datatype Session = Session(board: Gameboard, ctl: Controller)

  /** The controller's write to the dragged tile's `x` and `y`, if it made one. */
  function ApplyMoved(g: Gameboard, m: Option<TileMove>): (g': Gameboard)
    ensures SameSockets(g, g') && g'.dims == g.dims && g'.numberOfMoves == g.numberOfMoves
    ensures TileIds(g'.sockets) == TileIds(g.sockets)
    ensures forall k :: 0 <= k < |g.sockets| ==> g'.sockets[k].tile.pinned == g.sockets[k].tile.pinned
  {
    match m
    case None => g
    case Some(TileMove(id, p)) => MoveHeldTile(g, id, p)
  }

  /** Each outcome's handler in turn; `won` records whether any of them found the board solved. */
  function ApplyAll(g: Gameboard, outs: seq<Outcome>): (h: Handled)
    requires forall o :: o in outs ==> o.NamesSocketsBelow(|g.sockets|)
    ensures SameSockets(g, h.board) && h.board.dims == g.dims
    ensures h.won ==> exists o :: o in outs && o.IsSwap()
    decreases |outs|
  {
    if outs == [] then Handled(g, false)
    else
      var h1 := Apply(g, outs[0]);
      var rest := ApplyAll(h1.board, outs[1..]);
      Handled(rest.board, h1.won || rest.won)
  }

  /** A single outcome is handled exactly as the board's handler for it. */
  lemma ApplyOne(g: Gameboard, o: Outcome)
    requires o.NamesSocketsBelow(|g.sockets|)
    ensures ApplyAll(g, [o]) == Apply(g, o)
  {
    assert [o][1..] == [];
  }

  /** Handling outcomes keeps a valid board valid, given that no swap names a pinned socket. */
  lemma {:induction false} ApplyAllKeepsValid(g: Gameboard, outs: seq<Outcome>)
    requires Valid(g)
    requires forall o :: o in outs ==> o.NamesSocketsBelow(|g.sockets|)
    requires forall o :: o in outs && o.IsSwap() ==>
      !g.sockets[o.SwapPair().0].pinned && !g.sockets[o.SwapPair().1].pinned
    ensures Valid(ApplyAll(g, outs).board)
    decreases |outs|
  {
    if outs != [] {
      ApplyKeepsValid(g, outs[0]);
      var g1 := Apply(g, outs[0]).board;
      assert forall o :: o in outs[1..] ==> o in outs;
      ApplyAllKeepsValid(g1, outs[1..]);
    }
  }

  /** Moving a tile keeps a valid board valid. */
  lemma ApplyMovedKeepsValid(g: Gameboard, m: Option<TileMove>)
    requires Valid(g)
    ensures Valid(ApplyMoved(g, m))
  {
    var g' := ApplyMoved(g, m);
    assert SocketIds(g'.sockets) == SocketIds(g.sockets);
  }

  /** One input, start to finish. */
  function Step(s: Session, input: Input): (s': Session)
    requires Fits(s.ctl, s.board)
    ensures SameSockets(s.board, s'.board) && s'.board.dims == s.board.dims
    ensures Fits(s'.ctl, s'.board)
    ensures s'.ctl.current == React(s.ctl, s.board, input).ctl.current
    ensures s'.ctl.selected == React(s.ctl, s.board, input).ctl.selected
    ensures s'.ctl.active <==>
      s.ctl.active &&
      !((exists o :: o in React(s.ctl, s.board, input).outcomes && o.IsSwap()) && AllHome(s'.board.sockets))
  {
    var r := React(s.ctl, s.board, input);
    var b1 := ApplyMoved(s.board, r.moved);
    SwapComesAlone(s.ctl, s.board, input);
    WinIffSolvingSwap(b1, r.outcomes);
    var h := ApplyAll(b1, r.outcomes);
    Session(h.board, if h.won then Deactivate(r.ctl) else r.ctl)
  }

  /**
   * When a swap is the only outcome, the handlers report a win exactly when
   * the swap leaves every socket holding its own tile; without a swap they
   * never do.
   */
  lemma WinIffSolvingSwap(g: Gameboard, outs: seq<Outcome>)
    requires forall o :: o in outs ==> o.NamesSocketsBelow(|g.sockets|)
    requires (exists o :: o in outs && o.IsSwap()) ==> |outs| == 1
    ensures ApplyAll(g, outs).won <==>
      (exists o :: o in outs && o.IsSwap()) && AllHome(ApplyAll(g, outs).board.sockets)
  {
    if exists o :: o in outs && o.IsSwap() {
      var o := outs[0];
      assert outs == [o];
      ApplyOne(g, o);
    }
  }

  /**
   * The session invariant: a valid board, controller sockets that exist and
   * are unpinned, and no pending selection beside a dragged gesture.
   */
  predicate Inv(s: Session) {
    Valid(s.board) && Fits(s.ctl, s.board) && OriginsUnpinned(s.ctl, s.board) && DragClearsSelection(s.ctl)
  }

  /** Every input keeps the session invariant. */
  lemma StepKeepsInv(s: Session, input: Input)
    requires Inv(s)
    ensures Inv(Step(s, input))
  {
    var r := React(s.ctl, s.board, input);
    ReactKeepsOrigins(s.ctl, s.board, input);
    SwapsAvoidPinned(s.ctl, s.board, input);
    var b1 := ApplyMoved(s.board, r.moved);
    ApplyMovedKeepsValid(s.board, r.moved);
    ApplyAllKeepsValid(b1, r.outcomes);
  }

  /** No input ever makes the board swap a pinned socket's tile: pinned sockets stay solved. */
  lemma PinnedNeverMove(s: Session, input: Input)
    requires Inv(s)
    ensures forall k :: 0 <= k < |s.board.sockets| && s.board.sockets[k].pinned ==>
      Step(s, input).board.sockets[k].tile.id == s.board.sockets[k].id
  {
    StepKeepsInv(s, input);
  }

  // ---------------------------------------------------------------------------
  // Gesture sequences

  /** Ready for a new gesture: invariant holds, active, nothing current, nothing selected. */
  predicate Ready(s: Session) {
    Inv(s) && s.ctl.active && s.ctl.current.None? && s.ctl.selected.None?
  }

  /** A pointer-down on the tile held by socket `a`, grabbed at `offset`. */
  function Press(s: Session, a: nat, offset: Point): Input
    requires a < |s.board.sockets|
  {
    Down(TileElement(Some(s.board.sockets[a].tile.id)), offset)
  }

  /** Pressing an unpinned socket's tile on a ready session starts a gesture from that socket. */
  lemma PressStarts(s: Session, a: nat, offset: Point)
    requires Ready(s) && a < |s.board.sockets| && !s.board.sockets[a].pinned
    ensures var s' := Step(s, Press(s, a, offset));
      && s'.ctl.current.Some? && s'.ctl.current.value.origin == a
      && s'.ctl.current.value.tileId == s.board.sockets[a].tile.id
      && s'.ctl.current.value.grabOffset == offset
      && !s'.ctl.current.value.draggedOverOtherTiles
      && s'.ctl.selected.None? && s'.ctl.active
      && TileIds(s'.board.sockets) == TileIds(s.board.sockets)
      && s'.board.numberOfMoves == s.board.numberOfMoves
  {
    HeldBy(s.board, a);
    var r := React(s.ctl, s.board, Press(s, a, offset));
    var id := s.board.sockets[a].tile.id;
    assert r.outcomes == [BeginTileGesture(id)];
    ApplyOne(s.board, BeginTileGesture(id));
    ApplyEffects(s.board, BeginTileGesture(id));
  }

  /** A tap: a press and a release with no move in between. */
  function Tap(s: Session, a: nat, offset: Point): Session
    requires Fits(s.ctl, s.board) && a < |s.board.sockets|
  {
    var s1 := Step(s, Press(s, a, offset));
    Step(s1, Up)
  }

  /** Tapping an unpinned socket's tile on a ready session selects that socket and costs nothing. */
  lemma TapSelects(s: Session, a: nat, offset: Point)
    requires Ready(s) && a < |s.board.sockets| && !s.board.sockets[a].pinned
    ensures var s' := Tap(s, a, offset);
      && Inv(s') && s'.ctl.active && s'.ctl.current.None?
      && s'.ctl.selected.Some? && s'.ctl.selected.value.origin == a
      && TileIds(s'.board.sockets) == TileIds(s.board.sockets)
      && s'.board.numberOfMoves == s.board.numberOfMoves
  {
    var s1 := Step(s, Press(s, a, offset));
    PressStarts(s, a, offset);
    StepKeepsInv(s, Press(s, a, offset));
    StepKeepsInv(s1, Up);
    var r := React(s1.ctl, s1.board, Up);
    assert r.outcomes == [CompleteTileSelection(a)];
    ApplyOne(s1.board, CompleteTileSelection(a));
    ApplyEffects(s1.board, CompleteTileSelection(a));
  }

  /**
   * Tapping the selected tile again drops the selection: no tile changes
   * socket and no move is counted.
   */
  lemma TapSameTileTwice(s: Session, a: nat, o1: Point, o2: Point)
    requires Ready(s) && a < |s.board.sockets| && !s.board.sockets[a].pinned
    ensures var s1 := Tap(s, a, o1);
      a < |s1.board.sockets| &&
      var s2 := Tap(s1, a, o2);
      && Ready(s2)
      && TileIds(s2.board.sockets) == TileIds(s.board.sockets)
      && s2.board.numberOfMoves == s.board.numberOfMoves
  {
    var s1 := Tap(s, a, o1);
    TapSelects(s, a, o1);
    SecondTap(s1, a, o2);
  }

  /**
   * With socket `a` selected, tapping the tile of socket `b` swaps the two
   * sockets' tiles and counts one move; tapping `a` again swaps nothing.
   */
  lemma SecondTap(s: Session, b: nat, offset: Point)
    requires Inv(s) && s.ctl.active && s.ctl.current.None? && s.ctl.selected.Some?
    requires b < |s.board.sockets| && !s.board.sockets[b].pinned
    ensures var a := s.ctl.selected.value.origin;
      var s' := Tap(s, b, offset);
      && Inv(s') && s'.ctl.current.None? && s'.ctl.selected.None?
      && (a != b ==>
            && s'.board.numberOfMoves == s.board.numberOfMoves + 1
            && (s'.ctl.active <==> !CheckForWin(s'.board))
            && s'.board.sockets[a].tile.id == s.board.sockets[b].tile.id
            && s'.board.sockets[b].tile.id == s.board.sockets[a].tile.id
            && forall k :: 0 <= k < |s.board.sockets| && k != a && k != b ==>
                 s'.board.sockets[k].tile.id == s.board.sockets[k].tile.id)
      && (a == b ==>
            && s'.ctl.active
            && s'.board.numberOfMoves == s.board.numberOfMoves
            && TileIds(s'.board.sockets) == TileIds(s.board.sockets))
  {
    var a := s.ctl.selected.value.origin;
    var press := Press(s, b, offset);
    var s1 := Step(s, press);
    HeldBy(s.board, b);
    var r0 := React(s.ctl, s.board, press);
    var id := s.board.sockets[b].tile.id;
    assert r0.outcomes == [BeginTileGesture(id)];
    ApplyOne(s.board, BeginTileGesture(id));
    ApplyEffects(s.board, BeginTileGesture(id));
    StepKeepsInv(s, press);
    StepKeepsInv(s1, Up);
    assert s1.ctl.selected == s.ctl.selected && s1.ctl.active;
    assert s1.ctl.current.value.origin == b && !s1.ctl.current.value.draggedOverOtherTiles;
    var e := if a != b then CompleteTileSelectionBasedSwap(a, b) else AbortTileSelectionBasedSwap(a);
    var r := React(s1.ctl, s1.board, Up);
    assert r.outcomes == [e];
    ApplyOne(s1.board, e);
    ApplyEffects(s1.board, e);
  }

  /**
   * A drag that leaves its socket and comes back to rest strictly inside it
   * still costs one move: the controller reports the abort as a drag over
   * other tiles. No tile changes socket.
   */
  lemma DragOutAndBackCostsAMove(s: Session, a: nat, offset: Point, away: Point, back: Point)
    requires Ready(s) && a < |s.board.sockets| && !s.board.sockets[a].pinned
    requires s.board.dims.width > 0 && s.board.dims.height > 0
    requires !ContainsPoint(s.board.sockets[a], s.board.dims, DraggedTo(offset, away))
    requires StrictlyInBox(Bounds(s.board.sockets[a], s.board.dims), DraggedTo(offset, back))
    ensures var s1 := Step(s, Press(s, a, offset));
      var s2 := Step(s1, Move(away));
      var s3 := Step(s2, Move(back));
      var s4 := Step(s3, Up);
      && Ready(s4)
      && TileIds(s4.board.sockets) == TileIds(s.board.sockets)
      && s4.board.numberOfMoves == s.board.numberOfMoves + 1
  {
    var s1 := Step(s, Press(s, a, offset));
    PressStarts(s, a, offset);
    StepKeepsInv(s, Press(s, a, offset));
    SameCellSameBounds(s1.board.sockets[a], s.board.sockets[a], s.board.dims);
    var s2 := MoveAway(s1, a, away);
    SameCellSameBounds(s2.board.sockets[a], s1.board.sockets[a], s.board.dims);
    var s3 := MoveBack(s2, a, back);
    SameCellSameBounds(s3.board.sockets[a], s2.board.sockets[a], s.board.dims);
    DropOnOrigin(s3, a);
  }

  /** The first move, outside the socket, makes the gesture a drag. */
  lemma MoveAway(s: Session, a: nat, away: Point) returns (s': Session)
    requires Inv(s) && s.ctl.active && s.ctl.selected.None? && s.ctl.current.Some?
    requires s.ctl.current.value.origin == a && a < |s.board.sockets|
    requires s.ctl.current.value.tileId == s.board.sockets[a].tile.id
    requires !ContainsPoint(s.board.sockets[a], s.board.dims, DraggedTo(s.ctl.current.value.grabOffset, away))
    ensures s' == Step(s, Move(away))
    ensures Inv(s') && s'.ctl.active && s'.ctl.selected.None? && s'.ctl.current.Some?
    ensures s'.ctl.current.value == s.ctl.current.value.(draggedOverOtherTiles := true)
    ensures TileIds(s'.board.sockets) == TileIds(s.board.sockets)
    ensures s'.board.numberOfMoves == s.board.numberOfMoves
  {
    s' := Step(s, Move(away));
    StepKeepsInv(s, Move(away));
    var gesture := s.ctl.current.value;
    var r := React(s.ctl, s.board, Move(away));
    var b1 := ApplyMoved(s.board, r.moved);
    assert r.outcomes == [UpdateTileGesture(gesture.tileId)];
    ApplyOne(b1, UpdateTileGesture(gesture.tileId));
  }

  /** Moving back strictly inside the socket leaves the tile there, still a drag. */
  lemma MoveBack(s: Session, a: nat, back: Point) returns (s': Session)
    requires Inv(s) && s.ctl.active && s.ctl.selected.None? && s.ctl.current.Some?
    requires s.ctl.current.value.origin == a && a < |s.board.sockets|
    requires s.ctl.current.value.tileId == s.board.sockets[a].tile.id
    requires s.ctl.current.value.draggedOverOtherTiles
    requires StrictlyInBox(Bounds(s.board.sockets[a], s.board.dims), DraggedTo(s.ctl.current.value.grabOffset, back))
    ensures s' == Step(s, Move(back))
    ensures Inv(s') && s'.ctl.active && s'.ctl.selected.None? && s'.ctl.current == s.ctl.current
    ensures s'.board.sockets[a].tile.id == s.board.sockets[a].tile.id
    ensures Centre(s'.board.sockets[a].tile) == Some(DraggedTo(s.ctl.current.value.grabOffset, back))
    ensures TileIds(s'.board.sockets) == TileIds(s.board.sockets)
    ensures s'.board.numberOfMoves == s.board.numberOfMoves
  {
    s' := Step(s, Move(back));
    StepKeepsInv(s, Move(back));
    var gesture := s.ctl.current.value;
    var r := React(s.ctl, s.board, Move(back));
    HeldBy(s.board, a);
    var b1 := ApplyMoved(s.board, r.moved);
    assert r.outcomes == [UpdateTileGesture(gesture.tileId)];
    ApplyOne(b1, UpdateTileGesture(gesture.tileId));
  }

  /** Releasing a drag whose tile rests strictly inside its own socket aborts it as a drag: one move, no swap. */
  lemma DropOnOrigin(s: Session, a: nat)
    requires Inv(s) && s.ctl.active && s.ctl.selected.None? && s.ctl.current.Some?
    requires s.ctl.current.value.origin == a && a < |s.board.sockets|
    requires s.ctl.current.value.tileId == s.board.sockets[a].tile.id
    requires s.ctl.current.value.draggedOverOtherTiles
    requires s.board.dims.width > 0 && s.board.dims.height > 0
    requires Centre(s.board.sockets[a].tile).Some?
    requires StrictlyInBox(Bounds(s.board.sockets[a], s.board.dims), Centre(s.board.sockets[a].tile).value)
    ensures var s' := Step(s, Up);
      && Ready(s')
      && TileIds(s'.board.sockets) == TileIds(s.board.sockets)
      && s'.board.numberOfMoves == s.board.numberOfMoves + 1
  {
    StepKeepsInv(s, Up);
    var gesture := s.ctl.current.value;
    HeldBy(s.board, a);
    SocketAtInteriorPoint(s.board, a, Centre(s.board.sockets[a].tile).value);
    assert DropTarget(s.board, gesture.tileId) == Some(a);
    var e := AbortTileDragBasedSwap(a, true);
    var r := React(s.ctl, s.board, Up);
    assert r.outcomes == [e];
    ApplyOne(s.board, e);
    ApplyEffects(s.board, e);
  }
}
