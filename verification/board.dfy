/**
 * The gameboard (src/gameboard/Gameboard.js) without its rendering: the
 * socket sequence, the board tile size, the move counter, hit-testing, the
 * win check and the handlers that turn each gesture outcome into a change
 * of tile ownership, tile placement and move count.
 */
module Board {
  import opened Wrappers
  import opened Geometry
  import opened Tiles
  import opened Sockets
  import opened Events

  /** The grabbed-tile enlargement (`activeTileScalingFactor`). */
  const ActiveTileScalingFactor: real := 1.2

  datatype Gameboard = Gameboard(nCols: int, nRows: int, sockets: seq<Socket>, dims: Dims, numberOfMoves: int)

  /** The ids of the tiles, in socket order. */
  function TileIds(ss: seq<Socket>): (r: seq<string>)
    ensures |r| == |ss| && forall k :: 0 <= k < |ss| ==> r[k] == ss[k].tile.id
  {
    seq(|ss|, k requires 0 <= k < |ss| => ss[k].tile.id)
  }

  /** The ids of the sockets, in socket order. */
  function SocketIds(ss: seq<Socket>): (r: seq<string>)
    ensures |r| == |ss| && forall k :: 0 <= k < |ss| ==> r[k] == ss[k].id
  {
    seq(|ss|, k requires 0 <= k < |ss| => ss[k].id)
  }

  /**
   * The socket-to-tile mapping is a bijection onto the full tile set: the tiles
   * held are exactly the tiles the sockets started with (one per socket id).
   */
  predicate Bijective(ss: seq<Socket>) {
    multiset(TileIds(ss)) == multiset(SocketIds(ss))
  }

  /** Every pinned socket holds its own tile. */
  predicate PinnedAtHome(ss: seq<Socket>) {
    forall k :: 0 <= k < |ss| && ss[k].pinned ==> ss[k].tile.id == ss[k].id
  }

  /** Pinned sockets hold pinned tiles and unpinned sockets unpinned ones. */
  predicate PinFlagsAgree(ss: seq<Socket>) {
    forall k :: 0 <= k < |ss| ==> ss[k].tile.pinned == ss[k].pinned
  }

  /** No two sockets occupy the same grid cell. */
  predicate DistinctCells(ss: seq<Socket>) {
    forall a, b :: 0 <= a < |ss| && 0 <= b < |ss| && a != b ==>
      ss[a].col != ss[b].col || ss[a].row != ss[b].row
  }

  /** The invariant every board of a play session keeps. */
  predicate Valid(g: Gameboard) {
    g.nCols >= 1 && g.nRows >= 1 &&
    DistinctIds(g.sockets) && DistinctCells(g.sockets) &&
    Bijective(g.sockets) && PinnedAtHome(g.sockets) && PinFlagsAgree(g.sockets)
  }

  /** `g'` has the same sockets as `g` (id, column, row, pinned flag) and the same grid. */
  predicate SameSockets(g: Gameboard, g': Gameboard) {
    g'.nCols == g.nCols && g'.nRows == g.nRows && |g'.sockets| == |g.sockets| &&
    forall k :: 0 <= k < |g.sockets| ==> Sockets.SameIdentity(g'.sockets[k], g.sockets[k])
  }

  /** `checkForWin`: every socket holds the tile whose id is its own. */
  predicate CheckForWin(g: Gameboard) {
    AllHome(g.sockets)
  }

  // ---------------------------------------------------------------------------
  // Geometry

  /**
   * `setNominalBoardSize`: derive the tile size, then put every tile on its
   * socket's centre at normal size. Which tile a socket holds is unchanged.
   */
  function SetNominalBoardSize(g: Gameboard, nominalWidth: real, nominalHeight: real): (g': Gameboard)
    requires g.nCols >= 1 && g.nRows >= 1
    ensures SameSockets(g, g') && g'.numberOfMoves == g.numberOfMoves
    ensures g'.dims == TileDims(nominalWidth, nominalHeight, g.nCols, g.nRows)
    ensures forall k :: 0 <= k < |g.sockets| ==>
      var t, t' := g.sockets[k].tile, g'.sockets[k].tile;
      Tiles.SameIdentity(t', t) && t'.scale == 1.0 &&
      Centre(t') == Some(Position(g.sockets[k], g'.dims)) &&
      Centre(t') == Some(Position(g'.sockets[k], g'.dims)) &&
      Width(t', g'.dims) == Dimensions(g.sockets[k], g'.dims).width as real &&
      Height(t', g'.dims) == Dimensions(g.sockets[k], g'.dims).height as real
  {
    var d := TileDims(nominalWidth, nominalHeight, g.nCols, g.nRows);
    var ss := seq(|g.sockets|, k requires 0 <= k < |g.sockets| => AtRest(g.sockets[k], d));
    g.(dims := d, sockets := ss)
  }

  /** `Object.assign(socket.tile, socket.position, socket.dimensions)` for one socket. */
  function AtRest(s: Socket, d: Dims): (s': Socket)
    ensures Sockets.SameIdentity(s', s) && Tiles.SameIdentity(s'.tile, s.tile) && s'.tile.scale == 1.0
    ensures Centre(s'.tile) == Some(Position(s, d)) && Centre(s'.tile) == Some(Position(s', d))
  {
    var s' := s.(tile := SetScale(MoveTo(s.tile, Position(s, d)), 1.0));
    assert Position(s', d) == Position(s, d);
    s'
  }

  /** Resizing to the same nominal size a second time changes nothing. */
  lemma SetNominalBoardSizeIdempotent(g: Gameboard, w: real, h: real)
    requires g.nCols >= 1 && g.nRows >= 1
    ensures SetNominalBoardSize(SetNominalBoardSize(g, w, h), w, h) == SetNominalBoardSize(g, w, h)
  {
    var g1 := SetNominalBoardSize(g, w, h);
    var g2 := SetNominalBoardSize(g1, w, h);
    forall k | 0 <= k < |g1.sockets|
      ensures g2.sockets[k] == g1.sockets[k]
    {
      var t := g1.sockets[k].tile;
      assert Position(g1.sockets[k], g1.dims) == Position(g.sockets[k], g1.dims);
      assert Centre(t) == Some(Position(g.sockets[k], g1.dims));
    }
    assert g2.sockets == g1.sockets;
  }

  /** Resizing keeps a valid board valid and a solved board solved. */
  lemma SizingKeepsValid(g: Gameboard, w: real, h: real)
    requires Valid(g)
    ensures Valid(SetNominalBoardSize(g, w, h))
    ensures CheckForWin(SetNominalBoardSize(g, w, h)) <==> CheckForWin(g)
  {
    var g' := SetNominalBoardSize(g, w, h);
    assert TileIds(g'.sockets) == TileIds(g.sockets);
    assert SocketIds(g'.sockets) == SocketIds(g.sockets);
  }

  /** First socket (in socket order, from index `from`) whose bounds contain `p`. */
  function FirstContaining(ss: seq<Socket>, d: Dims, p: Point, from: nat): (r: Option<nat>)
    requires from <= |ss|
    ensures r.Some? ==> from <= r.value < |ss| && ContainsPoint(ss[r.value], d, p)
    ensures r.Some? ==> forall k :: from <= k < r.value ==> !ContainsPoint(ss[k], d, p)
    ensures r.None? ==> forall k :: from <= k < |ss| ==> !ContainsPoint(ss[k], d, p)
    decreases |ss| - from
  {
    if from == |ss| then None
    else if ContainsPoint(ss[from], d, p) then Some(from)
    else FirstContaining(ss, d, p, from + 1)
  }

  /** `getSocketAtPosition`: the first socket, in socket order, whose closed bounds contain `p`. */
  function SocketAtPosition(g: Gameboard, p: Point): (r: Option<nat>)
    ensures r.Some? ==> r.value < |g.sockets| && ContainsPoint(g.sockets[r.value], g.dims, p)
    ensures r.Some? ==> forall k :: 0 <= k < r.value ==> !ContainsPoint(g.sockets[k], g.dims, p)
    ensures r.None? ==> forall k :: 0 <= k < |g.sockets| ==> !ContainsPoint(g.sockets[k], g.dims, p)
  {
    FirstContaining(g.sockets, g.dims, p, 0)
  }

  /** A point strictly inside a socket's cell hit-tests to that socket. */
  lemma SocketAtInteriorPoint(g: Gameboard, s: nat, p: Point)
    requires DistinctCells(g.sockets)
    requires g.dims.width > 0 && g.dims.height > 0
    requires s < |g.sockets| && StrictlyInBox(Bounds(g.sockets[s], g.dims), p)
    ensures SocketAtPosition(g, p) == Some(s)
  {
    var r := SocketAtPosition(g, p);
    if r.Some? && r.value != s {
      InteriorIsExclusive(g.sockets[s], g.sockets[r.value], g.dims, p);
    }
  }

  /** First socket, from index `from`, holding the tile with id `id`. */
  function FirstHolding(ss: seq<Socket>, id: string, from: nat): (r: Option<nat>)
    requires from <= |ss|
    ensures r.Some? ==> from <= r.value < |ss| && ss[r.value].tile.id == id
    ensures r.None? ==> forall k :: from <= k < |ss| ==> ss[k].tile.id != id
    decreases |ss| - from
  {
    if from == |ss| then None
    else if ss[from].tile.id == id then Some(from)
    else FirstHolding(ss, id, from + 1)
  }

  /** `getSocketHoldingTile`, with tiles identified by their (distinct) ids. */
  function SocketHoldingTile(g: Gameboard, id: string): (r: Option<nat>)
    ensures r.Some? ==> r.value < |g.sockets| && g.sockets[r.value].tile.id == id
    ensures r.None? ==> forall k :: 0 <= k < |g.sockets| ==> g.sockets[k].tile.id != id
  {
    FirstHolding(g.sockets, id, 0)
  }

  // ---------------------------------------------------------------------------
  // Ownership

  /** On a valid board no two sockets hold tiles with the same id. */
  lemma {:induction false} TileIdsDistinct(g: Gameboard, a: nat, b: nat)
    requires Valid(g)
    requires a < |g.sockets| && b < |g.sockets| && a != b
    ensures g.sockets[a].tile.id != g.sockets[b].tile.id
  {
    var tiles, ids := TileIds(g.sockets), SocketIds(g.sockets);
    if tiles[a] == tiles[b] {
      var lo, hi := if a < b then a else b, if a < b then b else a;
      RepeatCountsTwo(tiles, lo, hi);
      DistinctCountsOne(ids, tiles[a]);
      assert false;
    }
  }

  /** A value occurs at most once in a sequence without repeats. */
  lemma {:induction false} DistinctCountsOne(s: seq<string>, x: string)
    requires forall i, j :: 0 <= i < |s| && 0 <= j < |s| && i != j ==> s[i] != s[j]
    ensures multiset(s)[x] <= 1
  {
    if s != [] {
      var rest := s[1..];
      DistinctCountsOne(rest, x);
      assert s == [s[0]] + rest;
      if x == s[0] {
        assert x !in rest by {
          forall k | 0 <= k < |rest| ensures rest[k] != x {
            assert rest[k] == s[k + 1];
          }
        }
      }
    }
  }

  /** A value at two different positions occurs at least twice. */
  lemma RepeatCountsTwo(s: seq<string>, a: nat, b: nat)
    requires a < b < |s| && s[a] == s[b]
    ensures multiset(s)[s[a]] >= 2
  {
    assert s == s[..b] + s[b..];
    assert s[a] == s[..b][a];
    assert s[b] == s[b..][0];
  }

  /** On a valid board the socket holding a socket's tile is that socket. */
  lemma HeldBy(g: Gameboard, a: nat)
    requires Valid(g) && a < |g.sockets|
    ensures SocketHoldingTile(g, g.sockets[a].tile.id) == Some(a)
  {
    var r := SocketHoldingTile(g, g.sockets[a].tile.id);
    if r.value != a {
      TileIdsDistinct(g, a, r.value);
    }
  }

  /**
   * `socketA.swapTilesWith(socketB)` on the board: the two sockets exchange
   * tiles and every other socket is untouched.
   */
  function Swap(g: Gameboard, a: nat, b: nat): (g': Gameboard)
    requires a < |g.sockets| && b < |g.sockets|
    ensures SameSockets(g, g') && g'.dims == g.dims && g'.numberOfMoves == g.numberOfMoves
    ensures g'.sockets[a].tile == g.sockets[b].tile && g'.sockets[b].tile == g.sockets[a].tile
    ensures forall k :: 0 <= k < |g.sockets| && k != a && k != b ==> g'.sockets[k] == g.sockets[k]
  {
    var pair := SwapTilesWith(g.sockets[a], g.sockets[b]);
    g.(sockets := g.sockets[a := pair.0][b := pair.1])
  }

  /** A socket swapped with itself keeps its tile. */
  lemma SwapSelf(g: Gameboard, a: nat)
    requires a < |g.sockets|
    ensures Swap(g, a, a) == g
  {
    assert Swap(g, a, a).sockets == g.sockets;
  }

  /** Swapping twice restores the board. */
  lemma SwapTwice(g: Gameboard, a: nat, b: nat)
    requires a < |g.sockets| && b < |g.sockets|
    ensures Swap(Swap(g, a, b), a, b) == g
  {
    assert Swap(Swap(g, a, b), a, b).sockets == g.sockets;
  }

  /** A swap keeps the mapping a bijection over the same tile set. */
  lemma SwapKeepsBijective(g: Gameboard, a: nat, b: nat)
    requires a < |g.sockets| && b < |g.sockets|
    ensures multiset(TileIds(Swap(g, a, b).sockets)) == multiset(TileIds(g.sockets))
    ensures SocketIds(Swap(g, a, b).sockets) == SocketIds(g.sockets)
  {
    var g' := Swap(g, a, b);
    var ids := TileIds(g.sockets);
    assert TileIds(g'.sockets) == ids[a := ids[b]][b := ids[a]];
  }

  /** A swap of two unpinned sockets keeps the board valid. */
  lemma SwapKeepsValid(g: Gameboard, a: nat, b: nat)
    requires Valid(g)
    requires a < |g.sockets| && b < |g.sockets|
    requires !g.sockets[a].pinned && !g.sockets[b].pinned
    ensures Valid(Swap(g, a, b))
  {
    SwapKeepsBijective(g, a, b);
  }

  // ---------------------------------------------------------------------------
  // Tile placement

  /** `Object.assign(socket.tile, socket.position)`: the socket's tile moves to its centre. */
  function Place(g: Gameboard, s: nat): (g': Gameboard)
    requires s < |g.sockets|
    ensures SameSockets(g, g') && g'.dims == g.dims && g'.numberOfMoves == g.numberOfMoves
    ensures Centre(g'.sockets[s].tile) == Some(Position(g.sockets[s], g.dims))
    ensures Centre(g'.sockets[s].tile) == Some(Position(g'.sockets[s], g'.dims))
    ensures Tiles.SameIdentity(g'.sockets[s].tile, g.sockets[s].tile)
    ensures g'.sockets[s].tile.scale == g.sockets[s].tile.scale
    ensures forall k :: 0 <= k < |g.sockets| && k != s ==> g'.sockets[k] == g.sockets[k]
  {
    var sk := g.sockets[s];
    var placed := sk.(tile := MoveTo(sk.tile, Position(sk, g.dims)));
    assert Position(placed, g.dims) == Position(sk, g.dims);
    g.(sockets := g.sockets[s := placed])
  }

  /**
   * `Object.assign(socket.tile, socket.position, defaultTileDimensions)`: the
   * tile moves to its socket's centre and back to normal size.
   */
  function Settle(g: Gameboard, s: nat): (g': Gameboard)
    requires s < |g.sockets|
    ensures SameSockets(g, g') && g'.dims == g.dims && g'.numberOfMoves == g.numberOfMoves
    ensures Centre(g'.sockets[s].tile) == Some(Position(g.sockets[s], g.dims))
    ensures Centre(g'.sockets[s].tile) == Some(Position(g'.sockets[s], g'.dims))
    ensures Tiles.SameIdentity(g'.sockets[s].tile, g.sockets[s].tile)
    ensures g'.sockets[s].tile.scale == 1.0
    ensures forall k :: 0 <= k < |g.sockets| && k != s ==> g'.sockets[k] == g.sockets[k]
  {
    var g1 := Place(g, s);
    var sk := g1.sockets[s];
    var settled := sk.(tile := SetScale(sk.tile, 1.0));
    assert Position(settled, g.dims) == Position(sk, g.dims);
    g1.(sockets := g1.sockets[s := settled])
  }

  /** The tile ids held are unchanged by placing a tile. */
  lemma SettleKeepsTiles(g: Gameboard, s: nat)
    requires s < |g.sockets|
    ensures TileIds(Settle(g, s).sockets) == TileIds(g.sockets)
    ensures TileIds(Place(g, s).sockets) == TileIds(g.sockets)
  {}

  /** `incrementNumberOfMoves`. */
  function IncrementNumberOfMoves(g: Gameboard): (g': Gameboard)
    ensures g'.numberOfMoves == g.numberOfMoves + 1
    ensures g'.sockets == g.sockets && g'.dims == g.dims && g'.nCols == g.nCols && g'.nRows == g.nRows
  {
    g.(numberOfMoves := g.numberOfMoves + 1)
  }

  /**
   * The controller's own `tile.x = ...; tile.y = ...` while dragging: the tile
   * with id `id` moves to `p`, wherever it is held, and nothing else changes.
   */
  function MoveHeldTile(g: Gameboard, id: string, p: Point): (g': Gameboard)
    ensures SameSockets(g, g') && g'.dims == g.dims && g'.numberOfMoves == g.numberOfMoves
    ensures TileIds(g'.sockets) == TileIds(g.sockets)
    ensures forall k :: 0 <= k < |g.sockets| ==>
      Tiles.SameIdentity(g'.sockets[k].tile, g.sockets[k].tile) &&
      g'.sockets[k].tile.scale == g.sockets[k].tile.scale
    ensures forall k :: 0 <= k < |g.sockets| && SocketHoldingTile(g, id) != Some(k) ==> g'.sockets[k] == g.sockets[k]
    ensures SocketHoldingTile(g, id).Some? ==> Centre(g'.sockets[SocketHoldingTile(g, id).value].tile) == Some(p)
  {
    match SocketHoldingTile(g, id)
    case None => g
    case Some(s) =>
      var sk := g.sockets[s];
      g.(sockets := g.sockets[s := sk.(tile := MoveTo(sk.tile, p))])
  }

  // ---------------------------------------------------------------------------
  // Gesture outcome handlers

  /** A handler's effect: the new board and whether `checkForWin` fired. */
  datatype Handled = Handled(board: Gameboard, won: bool)

  /**
   * `onCompleteTileDragBasedSwapGesture` and
   * `onCompleteTileSelectionBasedSwapGesture`: swap, settle both tiles, count
   * the move, check for a win.
   */
  function CompleteSwap(g: Gameboard, a: nat, b: nat): (h: Handled)
    requires a < |g.sockets| && b < |g.sockets|
    ensures SameSockets(g, h.board) && h.board.dims == g.dims
    ensures h.board.numberOfMoves == g.numberOfMoves + 1
    ensures h.board.sockets[a].tile.id == g.sockets[b].tile.id
    ensures h.board.sockets[b].tile.id == g.sockets[a].tile.id
    ensures Centre(h.board.sockets[a].tile) == Some(Position(g.sockets[a], g.dims)) && h.board.sockets[a].tile.scale == 1.0
    ensures Centre(h.board.sockets[b].tile) == Some(Position(g.sockets[b], g.dims)) && h.board.sockets[b].tile.scale == 1.0
    ensures forall k :: 0 <= k < |g.sockets| && k != a && k != b ==> h.board.sockets[k] == g.sockets[k]
    ensures h.won <==> AllHome(h.board.sockets)
  {
    var g0 := Swap(g, a, b);
    var ga := Settle(g0, a);
    var g1 := Settle(ga, b);
    assert Position(ga.sockets[a], g.dims) == Position(g.sockets[a], g.dims);
    assert Position(g1.sockets[b], g.dims) == Position(g.sockets[b], g.dims);
    var g2 := IncrementNumberOfMoves(g1);
    Handled(g2, CheckForWin(g2))
  }

  /** The outcome-to-board dispatch of `attachEventListeners`. */
  function Apply(g: Gameboard, e: Outcome): (h: Handled)
    requires e.NamesSocketsBelow(|g.sockets|)
    ensures SameSockets(g, h.board) && h.board.dims == g.dims
    ensures h.won ==> e.IsSwap()
  {
    match e
    case BeginTileGesture(id) =>
      // onBeginTileGesture: the grabbed tile takes the selected size.
      var s := SocketHoldingTile(g, id);
      if s.None? then Handled(g, false)
      else
        var sk := g.sockets[s.value];
        Handled(g.(sockets := g.sockets[s.value := sk.(tile := SetScale(sk.tile, ActiveTileScalingFactor))]), false)
    case UpdateTileGesture(_) =>
      // onUpdateTileGesture only renders; the controller has already moved the tile.
      Handled(g, false)
    case CompleteTileDragBasedSwap(a, b) =>
      CompleteSwap(g, a, b)
    case AbortTileDragBasedSwap(o, dragged) =>
      var g1 := Settle(g, o);
      Handled(if dragged then IncrementNumberOfMoves(g1) else g1, false)
    case CompleteTileSelection(s) =>
      Handled(Place(g, s), false)
    case AbortTileSelection(s) =>
      Handled(Settle(g, s), false)
    case CompleteTileSelectionBasedSwap(a, b) =>
      CompleteSwap(g, a, b)
    case AbortTileSelectionBasedSwap(s) =>
      Handled(Settle(g, s), false)
  }

  /**
   * Move counting and ownership per outcome: a swap exchanges exactly the two
   * named sockets' tiles and counts one move; an aborted drag keeps every
   * tile where it is and counts a move exactly when the tile had left its
   * socket; every other outcome keeps ownership and the count.
   */
  lemma ApplyEffects(g: Gameboard, e: Outcome)
    requires e.NamesSocketsBelow(|g.sockets|)
    ensures var h := Apply(g, e);
      && (e.IsSwap() ==>
            var (a, b) := e.SwapPair();
            && h.board.numberOfMoves == g.numberOfMoves + 1
            && h.board.sockets[a].tile.id == g.sockets[b].tile.id
            && h.board.sockets[b].tile.id == g.sockets[a].tile.id
            && forall k :: 0 <= k < |g.sockets| && k != a && k != b ==> h.board.sockets[k].tile.id == g.sockets[k].tile.id)
      && (!e.IsSwap() ==> TileIds(h.board.sockets) == TileIds(g.sockets))
      && (e.AbortTileDragBasedSwap? ==>
            h.board.numberOfMoves == g.numberOfMoves + (if e.draggedOverOtherTiles then 1 else 0))
      && (!e.IsSwap() && !e.AbortTileDragBasedSwap? ==> h.board.numberOfMoves == g.numberOfMoves)
  {
    match e
    case AbortTileDragBasedSwap(o, _) => SettleKeepsTiles(g, o);
    case CompleteTileSelection(s) => SettleKeepsTiles(g, s);
    case AbortTileSelection(s) => SettleKeepsTiles(g, s);
    case AbortTileSelectionBasedSwap(s) => SettleKeepsTiles(g, s);
    case _ =>
  }

  /** Every outcome keeps a valid board valid, given that swaps name only unpinned sockets. */
  lemma ApplyKeepsValid(g: Gameboard, e: Outcome)
    requires Valid(g)
    requires e.NamesSocketsBelow(|g.sockets|)
    requires e.IsSwap() ==> !g.sockets[e.SwapPair().0].pinned && !g.sockets[e.SwapPair().1].pinned
    ensures Valid(Apply(g, e).board)
  {
    var h := Apply(g, e);
    match e
    case CompleteTileDragBasedSwap(a, b) =>
      SwapOnlyUnpinnedValid(g, a, b);
    case CompleteTileSelectionBasedSwap(a, b) =>
      SwapOnlyUnpinnedValid(g, a, b);
    case _ =>
      ApplyEffects(g, e);
      assert TileIds(h.board.sockets) == TileIds(g.sockets);
      assert SocketIds(h.board.sockets) == SocketIds(g.sockets);
  }

  lemma SwapOnlyUnpinnedValid(g: Gameboard, a: nat, b: nat)
    requires Valid(g)
    requires a < |g.sockets| && b < |g.sockets|
    requires !g.sockets[a].pinned && !g.sockets[b].pinned
    ensures Valid(CompleteSwap(g, a, b).board)
  {
    var g1 := Swap(g, a, b);
    SwapKeepsValid(g, a, b);
    SettleKeepsTiles(g1, a);
    SettleKeepsTiles(Settle(g1, a), b);
    var h := CompleteSwap(g, a, b);
    assert TileIds(h.board.sockets) == TileIds(g1.sockets);
    assert SocketIds(h.board.sockets) == SocketIds(g1.sockets);
  }
}
