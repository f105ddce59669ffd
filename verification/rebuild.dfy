/** `rebuildSpatial()` of `World`: every player is removed from the player
    hash under its recorded key, the side table is cleared, and every
    player, dead or alive, is added again at its current position. The
    source walks `playerCells` and `players` in insertion order, which is
    `order` for both. */
module Rebuild {
  import opened Spatial
  import opened WorldState

  /** The re-insertion loop over `ids`. */
  function AddAll(h: SpatialHash<PlayerId>, cells: map<PlayerId, Cell>, players: map<PlayerId, Player>, ids: seq<PlayerId>)
    : (r: (SpatialHash<PlayerId>, map<PlayerId, Cell>))
    requires Distinct(ids)
    ensures r.0.cellSize == h.cellSize
    ensures Tracks(h, cells) && (forall id :: id in ids ==> id !in cells) ==> Tracks(r.0, r.1)
    ensures forall id :: id in r.1 <==> id in cells || (id in ids && id in players)
    ensures forall id :: id in ids && id in players ==> r.1[id] == Key(h.cellSize, players[id].x, players[id].y)
    ensures forall id :: id in cells && id !in ids ==> r.1[id] == cells[id]
    decreases |ids|
  {
    if ids == [] then (h, cells)
    else
      var id := ids[0];
      DistinctSplit(ids);
      if id in players then
        var (h1, k) := Add(h, id, players[id].x, players[id].y);
        assert Tracks(h, cells) && id !in cells ==> Tracks(h1, cells[id := k]) by {
          if Tracks(h, cells) && id !in cells {
            TracksAdd(h, cells, id, players[id].x, players[id].y);
          }
        }
        AddAll(h1, cells[id := k], players, ids[1..])
      else
        AddAll(h, cells, players, ids[1..])
  }

  /** `rebuildSpatial()`. */
  function RebuildSpatial(w: World): (r: World)
    requires OrderValid(w)
    ensures r.players == w.players && r.order == w.order && r.draws == w.draws
    ensures SameFoodSide(w, r)
    ensures r.playerSpatial.cellSize == w.playerSpatial.cellSize
    ensures r.playerCells.Keys == w.players.Keys
    ensures forall id :: id in w.players ==> r.playerCells[id] == Key(w.playerSpatial.cellSize, w.players[id].x, w.players[id].y)
  {
    var h1 := RemoveAll(w.playerSpatial, w.playerCells, w.order);
    var (h2, cells) := AddAll(h1, map[], w.players, w.order);
    w.(playerSpatial := h2, playerCells := cells)
  }

  /** After a rebuild the registry holds and every recorded key is the key
      of the player's current position. */
  lemma RebuildKeeps(w: World)
    requires Registry(w)
    ensures Registry(RebuildSpatial(w)) && CellsCurrent(RebuildSpatial(w))
  {
    var h1 := RemoveAll(w.playerSpatial, w.playerCells, w.order);
    RemoveAllEmpties(w.playerSpatial, w.playerCells, w.playerCells, w.order);
    assert Tracks(h1, map[]);
    var r := RebuildSpatial(w);
    assert Tracks(r.playerSpatial, r.playerCells);
    assert PlayersIndexed(r);
    assert FoodsIndexed(r);
  }

  /** After a rebuild every player, dead ones included, is in the bucket of
      its current position, and nothing else is in the player hash. */
  lemma RebuildExact(w: World)
    requires Registry(w)
    ensures forall id :: id in w.players ==>
      id in Bucket(RebuildSpatial(w).playerSpatial, Key(w.cfg.sectorSize, w.players[id].x, w.players[id].y))
    ensures forall k, id :: k in RebuildSpatial(w).playerSpatial.cells && id in RebuildSpatial(w).playerSpatial.cells[k] ==>
      id in w.players
  {
    RebuildKeeps(w);
  }
}
