/**
 * `randomizeTiles` and the move reset of `start` (src/gameboard/Gameboard.js).
 * The shuffle walks the unpinned sockets in socket order and swaps socket `i`
 * with a socket `j` drawn from `[i+1, n-1]`, as in Sattolo's variant of the
 * Fisher-Yates shuffle. The property stated here is that, from the solved
 * board, no unpinned tile stays home. The random draws are an input.
 */
module Shuffle {
  import opened Wrappers
  import opened Geometry
  import opened Tiles
  import opened Sockets
  import opened Board

  /**
   * `u` lists the indices of the unpinned sockets of `ss`, each once, in
   * socket order.
   */
  predicate UnpinnedIndices(ss: seq<Socket>, u: seq<nat>) {
    (forall m :: 0 <= m < |u| ==> u[m] < |ss| && !ss[u[m]].pinned) &&
    (forall m, m' :: 0 <= m < m' < |u| ==> u[m] < u[m']) &&
    (forall k :: 0 <= k < |ss| && !ss[k].pinned ==> k in u)
  }

  /** The indices of the unpinned sockets from `from` on, in socket order. */
  function UnpinnedFrom(ss: seq<Socket>, from: nat): (u: seq<nat>)
    requires from <= |ss|
    ensures forall m :: 0 <= m < |u| ==> from <= u[m] < |ss| && !ss[u[m]].pinned
    ensures forall m, m' :: 0 <= m < m' < |u| ==> u[m] < u[m']
    ensures forall k :: from <= k < |ss| && !ss[k].pinned ==> k in u
    decreases |ss| - from
  {
    if from == |ss| then []
    else if ss[from].pinned then UnpinnedFrom(ss, from + 1)
    else [from] + UnpinnedFrom(ss, from + 1)
  }

  /** `sockets.filter(socket => !socket.pinned)`, as socket indices. */
  function Unpinned(ss: seq<Socket>): (u: seq<nat>)
    ensures UnpinnedIndices(ss, u)
  {
    UnpinnedFrom(ss, 0)
  }

  /**
   * The draws `Math.floor(d3.randomUniform(i + 1, n)())` for `i` in
   * `0 .. n-2`: one per step, each in `[i+1, n-1]`.
   */
  predicate SattoloDraws(draws: seq<int>, n: nat) {
    |draws| == (if n == 0 then 0 else n - 1) &&
    forall i :: 0 <= i < |draws| ==> i + 1 <= draws[i] < n
  }

  /** Socket `u[k]` of `cur` holds the tile socket `u[perm[k]]` of `g` held, size unchanged. */
  ghost predicate Tracks(g: Gameboard, cur: Gameboard, u: seq<nat>, perm: seq<int>)
    requires forall m :: 0 <= m < |u| ==> u[m] < |g.sockets|
    requires |cur.sockets| == |g.sockets|
  {
    |perm| == |u| &&
    forall k {:trigger perm[k]} :: 0 <= k < |u| ==>
      0 <= perm[k] < |u| &&
      Tiles.SameIdentity(cur.sockets[u[k]].tile, g.sockets[u[perm[k]]].tile) &&
      cur.sockets[u[k]].tile.scale == g.sockets[u[perm[k]]].tile.scale
  }

  /** Sattolo's invariant after `i` steps: positions before `i` are deranged, later ones hold themselves or an earlier index. */
  ghost predicate SattoloInvariant(perm: seq<int>, i: int) {
    (forall k :: 0 <= k < i && k < |perm| ==> perm[k] != k) &&
    (forall k :: 0 <= k < |perm| && i <= k ==> perm[k] == k || perm[k] < i) &&
    (|perm| >= 2 && i == |perm| - 1 ==> perm[|perm| - 1] != |perm| - 1)
  }

  /** The tile of socket `s` sits on the socket's centre. */
  predicate Placed(g: Gameboard, s: nat)
    requires s < |g.sockets|
  {
    Centre(g.sockets[s].tile) == Some(Position(g.sockets[s], g.dims))
  }

  /**
   * One step of `randomizeTiles`: `a.swapTilesWith(b)` and both tiles moved
   * onto their new sockets' centres.
   */
  method SwapAndPlace(g: Gameboard, a: nat, b: nat) returns (g': Gameboard)
    requires a < |g.sockets| && b < |g.sockets| && a != b
    ensures SwappedAndPlaced(g, g', a, b)
  {
    g' := Place(Place(Swap(g, a, b), a), b);
    SwapKeepsBijective(g, a, b);
    SettleKeepsTiles(Swap(g, a, b), a);
    SettleKeepsTiles(Place(Swap(g, a, b), a), b);
  }

  /** What `SwapAndPlace` promises: the exchange, both placements and nothing else changed. */
  ghost predicate SwappedAndPlaced(g: Gameboard, g': Gameboard, a: nat, b: nat)
    requires a < |g.sockets| && b < |g.sockets|
  {
    SameSockets(g, g') && g'.dims == g.dims && g'.numberOfMoves == g.numberOfMoves &&
    Tiles.SameIdentity(g'.sockets[a].tile, g.sockets[b].tile) &&
    g'.sockets[a].tile.scale == g.sockets[b].tile.scale &&
    Tiles.SameIdentity(g'.sockets[b].tile, g.sockets[a].tile) &&
    g'.sockets[b].tile.scale == g.sockets[a].tile.scale &&
    Placed(g', a) && Placed(g', b) &&
    (forall k :: 0 <= k < |g.sockets| && k != a && k != b ==> g'.sockets[k] == g.sockets[k]) &&
    multiset(TileIds(g'.sockets)) == multiset(TileIds(g.sockets))
  }

  /**
   * `randomizeTiles`. Pinned sockets are untouched, the mapping stays a
   * bijection over the same tiles, and with at least two unpinned sockets
   * every unpinned tile ends on its new socket's centre. Starting from the
   * solved board, no unpinned socket holds its own tile afterwards.
   */
  method RandomizeTiles(g: Gameboard, draws: seq<int>) returns (g': Gameboard)
    requires SattoloDraws(draws, |Unpinned(g.sockets)|)
    ensures SameSockets(g, g') && g'.dims == g.dims && g'.numberOfMoves == g.numberOfMoves
    ensures forall k :: 0 <= k < |g.sockets| && g.sockets[k].pinned ==> g'.sockets[k] == g.sockets[k]
    ensures multiset(TileIds(g'.sockets)) == multiset(TileIds(g.sockets))
    ensures Valid(g) ==> Valid(g')
    ensures |Unpinned(g.sockets)| >= 2 ==>
      forall k :: 0 <= k < |g.sockets| && !g.sockets[k].pinned ==> Placed(g', k)
    ensures |Unpinned(g.sockets)| >= 2 && AllHome(g.sockets) && DistinctIds(g.sockets) ==>
      forall k :: 0 <= k < |g.sockets| && !g.sockets[k].pinned ==> g'.sockets[k].tile.id != g'.sockets[k].id
  {
    var u := Unpinned(g.sockets);
    var n := |u|;
    ghost var perm := seq(n, k => k);
    var cur := g;
    var i := 0;
    ShuffleStart(g, u);
    while i < n - 1
      invariant 0 <= i <= (if n == 0 then 0 else n - 1)
      invariant ShuffleState(g, cur, u, perm, i)
    {
      var j := draws[i];
      ghost var prev, prevPerm := cur, perm;
      cur := SwapAndPlace(cur, u[i], u[j]);
      perm := perm[i := perm[j]][j := perm[i]];
      ShuffleStep(g, prev, cur, u, prevPerm, perm, i, j);
      i := i + 1;
    }
    g' := cur;
    ShuffleOutcome(g, g', u, perm);
  }

  /** The loop invariant of `RandomizeTiles` after `i` steps. */
  ghost predicate ShuffleState(g: Gameboard, cur: Gameboard, u: seq<nat>, perm: seq<int>, i: int)
    requires UnpinnedIndices(g.sockets, u)
  {
    Frame(g, cur) && Tracks(g, cur, u, perm) && SattoloInvariant(perm, i) &&
    (forall k :: 0 <= k < i && k < |u| ==> Placed(cur, u[k])) &&
    (|u| >= 2 && i == |u| - 1 ==> Placed(cur, u[|u| - 1]))
  }

  /** What a shuffle keeps: the sockets, the size, the count, the pinned sockets and the tile multiset. */
  ghost predicate Frame(g: Gameboard, cur: Gameboard) {
    SameSockets(g, cur) && cur.dims == g.dims && cur.numberOfMoves == g.numberOfMoves &&
    (forall k :: 0 <= k < |g.sockets| && g.sockets[k].pinned ==> cur.sockets[k] == g.sockets[k]) &&
    multiset(TileIds(cur.sockets)) == multiset(TileIds(g.sockets))
  }

  lemma ShuffleStart(g: Gameboard, u: seq<nat>)
    requires UnpinnedIndices(g.sockets, u)
    ensures ShuffleState(g, g, u, seq(|u|, k => k), 0)
  {
    var perm := seq(|u|, k => k);
    assert Tracks(g, g, u, perm) by {
      forall k | 0 <= k < |u| ensures perm[k] == k {}
    }
  }

  lemma ShuffleStep(g: Gameboard, prev: Gameboard, cur: Gameboard, u: seq<nat>,
                    prevPerm: seq<int>, perm: seq<int>, i: int, j: int)
    requires UnpinnedIndices(g.sockets, u)
    requires 0 <= i < j < |u|
    requires ShuffleState(g, prev, u, prevPerm, i)
    requires SwappedAndPlaced(prev, cur, u[i], u[j])
    requires perm == prevPerm[i := prevPerm[j]][j := prevPerm[i]]
    requires i + 1 == |u| - 1 ==> j == |u| - 1
    ensures ShuffleState(g, cur, u, perm, i + 1)
  {
    assert Frame(g, cur) by { StepKeepsFrame(g, prev, cur, u, i, j); }
    assert Tracks(g, cur, u, perm) by { StepKeepsTracks(g, prev, cur, u, prevPerm, perm, i, j); }
    assert SattoloInvariant(perm, i + 1) by { SattoloStep(prevPerm, perm, i, j); }
    assert forall k :: 0 <= k <= i ==> Placed(cur, u[k]) by { StepKeepsPlaced(prev, cur, u, i, j); }
  }

  lemma StepKeepsFrame(g: Gameboard, prev: Gameboard, cur: Gameboard, u: seq<nat>, i: int, j: int)
    requires UnpinnedIndices(g.sockets, u)
    requires 0 <= i < j < |u|
    requires Frame(g, prev)
    requires SwappedAndPlaced(prev, cur, u[i], u[j])
    ensures Frame(g, cur)
  {}

  lemma StepKeepsTracks(g: Gameboard, prev: Gameboard, cur: Gameboard, u: seq<nat>,
                        prevPerm: seq<int>, perm: seq<int>, i: int, j: int)
    requires UnpinnedIndices(g.sockets, u)
    requires 0 <= i < j < |u|
    requires |prev.sockets| == |g.sockets|
    requires Tracks(g, prev, u, prevPerm)
    requires SwappedAndPlaced(prev, cur, u[i], u[j])
    requires perm == prevPerm[i := prevPerm[j]][j := prevPerm[i]]
    ensures Tracks(g, cur, u, perm)
  {
    forall k | 0 <= k < |u|
      ensures 0 <= perm[k] < |u|
      ensures Tiles.SameIdentity(cur.sockets[u[k]].tile, g.sockets[u[perm[k]]].tile)
      ensures cur.sockets[u[k]].tile.scale == g.sockets[u[perm[k]]].tile.scale
    {
      if k != i && k != j {
        assert u[k] != u[i] && u[k] != u[j];
      }
    }
  }

  lemma SattoloStep(prevPerm: seq<int>, perm: seq<int>, i: int, j: int)
    requires 0 <= i < j < |prevPerm|
    requires SattoloInvariant(prevPerm, i)
    requires perm == prevPerm[i := prevPerm[j]][j := prevPerm[i]]
    ensures SattoloInvariant(perm, i + 1)
  {}

  /** One shuffle step leaves earlier placements alone and places sockets `u[i]` and `u[j]`. */
  lemma StepKeepsPlaced(prev: Gameboard, cur: Gameboard, u: seq<nat>, i: int, j: int)
    requires forall m :: 0 <= m < |u| ==> u[m] < |prev.sockets|
    requires forall m, m' :: 0 <= m < m' < |u| ==> u[m] < u[m']
    requires 0 <= i < j < |u|
    requires SwappedAndPlaced(prev, cur, u[i], u[j])
    requires forall k :: 0 <= k < i ==> Placed(prev, u[k])
    ensures forall k :: 0 <= k <= i ==> Placed(cur, u[k])
  {
    forall k | 0 <= k < i
      ensures Placed(cur, u[k])
    {
      assert u[k] != u[i] && u[k] != u[j];
      assert cur.sockets[u[k]] == prev.sockets[u[k]];
    }
  }

  /** The final loop state of `RandomizeTiles` gives its postconditions. */
  lemma ShuffleOutcome(g: Gameboard, g': Gameboard, u: seq<nat>, perm: seq<int>)
    requires UnpinnedIndices(g.sockets, u)
    requires ShuffleState(g, g', u, perm, if |u| == 0 then 0 else |u| - 1)
    ensures SameSockets(g, g') && g'.dims == g.dims && g'.numberOfMoves == g.numberOfMoves
    ensures forall k :: 0 <= k < |g.sockets| && g.sockets[k].pinned ==> g'.sockets[k] == g.sockets[k]
    ensures multiset(TileIds(g'.sockets)) == multiset(TileIds(g.sockets))
    ensures Valid(g) ==> Valid(g')
    ensures |u| >= 2 ==>
      forall k :: 0 <= k < |g.sockets| && !g.sockets[k].pinned ==> Placed(g', k)
    ensures |u| >= 2 && AllHome(g.sockets) && DistinctIds(g.sockets) ==>
      forall k :: 0 <= k < |g.sockets| && !g.sockets[k].pinned ==> g'.sockets[k].tile.id != g'.sockets[k].id
  {
    var n := |u|;
    if Valid(g) {
      forall k | 0 <= k < |g.sockets| && !g.sockets[k].pinned
        ensures !g'.sockets[k].tile.pinned
      {
        var m :| 0 <= m < n && u[m] == k;
        assert !g.sockets[u[perm[m]]].pinned;
      }
      ShuffleKeepsValid(g, g');
    }
    if n >= 2 {
      forall k | 0 <= k < |g.sockets| && !g.sockets[k].pinned
        ensures Placed(g', k)
      {
        var m :| 0 <= m < n && u[m] == k;
      }
    }
    if n >= 2 && AllHome(g.sockets) && DistinctIds(g.sockets) {
      SattoloDeranges(perm);
      forall k | 0 <= k < |g.sockets| && !g.sockets[k].pinned
        ensures g'.sockets[k].tile.id != g'.sockets[k].id
      {
        var m :| 0 <= m < n && u[m] == k;
        var p := perm[m];
        assert p != m;
        assert u[p] != k by {
          if p < m { assert u[p] < u[m]; } else { assert u[m] < u[p]; }
        }
        assert g'.sockets[k].tile.id == g.sockets[u[p]].tile.id == g.sockets[u[p]].id;
      }
    }
  }

  /** After the last step every position is moved: the permutation is a derangement. */
  lemma SattoloDeranges(perm: seq<int>)
    requires |perm| >= 2 && SattoloInvariant(perm, |perm| - 1)
    ensures forall m :: 0 <= m < |perm| ==> perm[m] != m
  {}

  /** Pinned sockets untouched and tile ids only permuted among unpinned sockets keep a board valid. */
  lemma ShuffleKeepsValid(g: Gameboard, g': Gameboard)
    requires Valid(g)
    requires SameSockets(g, g')
    requires forall k :: 0 <= k < |g.sockets| && g.sockets[k].pinned ==> g'.sockets[k] == g.sockets[k]
    requires multiset(TileIds(g'.sockets)) == multiset(TileIds(g.sockets))
    requires forall k :: 0 <= k < |g.sockets| && !g.sockets[k].pinned ==> !g'.sockets[k].tile.pinned
    ensures Valid(g')
  {
    assert SocketIds(g'.sockets) == SocketIds(g.sockets);
  }

  /** `start`: the move counter is reset and the tiles are shuffled. */
  method Start(g: Gameboard, draws: seq<int>) returns (g': Gameboard)
    requires SattoloDraws(draws, |Unpinned(g.sockets)|)
    ensures g'.numberOfMoves == 0
    ensures SameSockets(g, g') && g'.dims == g.dims
    ensures multiset(TileIds(g'.sockets)) == multiset(TileIds(g.sockets))
    ensures Valid(g) ==> Valid(g')
    ensures |Unpinned(g.sockets)| >= 2 && AllHome(g.sockets) && DistinctIds(g.sockets) ==>
      !CheckForWin(g')
  {
    var reset := g.(numberOfMoves := 0);
    assert Unpinned(reset.sockets) == Unpinned(g.sockets);
    g' := RandomizeTiles(reset, draws);
    if |Unpinned(g.sockets)| >= 2 && AllHome(g.sockets) && DistinctIds(g.sockets) {
      var u := Unpinned(g.sockets);
      assert g'.sockets[u[0]].tile.id != g'.sockets[u[0]].id;
    }
  }
}
