/** `aoiFor(p)` of `World`: the area of interest sent to a client, the
    players and foods within `viewRadius` of the viewer's head, found
    through the two hashes and filtered by exact distance. Dead players
    and the viewer itself are included. */
module Aoi {
  import opened Numeric
  import opened Spatial
  import opened WorldState

  /** What a client sees of a player: the length is floored. */
  datatype PlayerView = PlayerView(
    id: PlayerId,
    x: real,
    y: real,
    angle: real,
    length: int,
    alive: bool,
    name: string,
    skin: string,
    path: seq<Point>)

  /** What a client sees of a food: its value is not sent. */
  datatype FoodView = FoodView(id: FoodId, x: real, y: real)

  datatype View = View(players: map<PlayerId, PlayerView>, foods: map<FoodId, FoodView>)

  function ViewOf(o: Player): (v: PlayerView)
    ensures v.id == o.id && v.x == o.x && v.y == o.y && v.alive == o.alive && v.path == o.path
    ensures v.length as real <= o.length < v.length as real + 1.0
  {
    PlayerView(o.id, o.x, o.y, o.angle, o.length.Floor, o.alive, o.name, o.skin, o.path)
  }

  /** Within `r` of `(px, py)` by the exact test. */
  predicate Within(px: real, py: real, x: real, y: real, r: real) {
    Dist2(px, py, x, y) <= r * r
  }

  /** `aoiFor(p)` for a viewer standing at `(px, py)`. */
  function AoiFor(w: World, px: real, py: real): (v: View)
    ensures forall id :: id in v.players ==>
      && id in w.players
      && id in Query(w.playerSpatial, px, py, w.cfg.viewRadius)
      && Within(px, py, w.players[id].x, w.players[id].y, w.cfg.viewRadius)
      && v.players[id] == ViewOf(w.players[id])
    ensures forall id :: id in v.foods ==>
      && id in w.foods
      && id in Query(w.foodSpatial, px, py, w.cfg.viewRadius)
      && Within(px, py, w.foods[id].x, w.foods[id].y, w.cfg.viewRadius)
      && v.foods[id] == FoodView(w.foods[id].id, w.foods[id].x, w.foods[id].y)
  {
    var r := w.cfg.viewRadius;
    var ps := Query(w.playerSpatial, px, py, r);
    var fs := Query(w.foodSpatial, px, py, r);
    View(
      map id | id in ps && id in w.players && Within(px, py, w.players[id].x, w.players[id].y, r) :: ViewOf(w.players[id]),
      map id | id in fs && id in w.foods && Within(px, py, w.foods[id].x, w.foods[id].y, r) ::
        FoodView(w.foods[id].id, w.foods[id].x, w.foods[id].y))
  }

  /** With consistent tables and current cells, the player hash loses
      nobody: the view holds exactly the players within `viewRadius`. */
  lemma AoiPlayersExact(w: World, px: real, py: real)
    requires Registry(w) && CellsCurrent(w) && w.cfg.viewRadius >= 0.0
    ensures forall id :: id in AoiFor(w, px, py).players <==>
      id in w.players && Within(px, py, w.players[id].x, w.players[id].y, w.cfg.viewRadius)
  {
    var r := w.cfg.viewRadius;
    TracksBucket(w.playerSpatial, w.playerCells);
    forall id | id in w.players && Within(px, py, w.players[id].x, w.players[id].y, r)
      ensures id in Query(w.playerSpatial, px, py, r)
    {
      var o := w.players[id];
      QuerySoundCircle(w.playerSpatial, px, py, r, id, o.x, o.y);
    }
  }

  /** With consistent tables, the food hash loses nothing: the view holds
      exactly the foods within `viewRadius`. */
  lemma AoiFoodsExact(w: World, px: real, py: real)
    requires Registry(w) && w.cfg.viewRadius >= 0.0
    ensures forall id :: id in AoiFor(w, px, py).foods <==>
      id in w.foods && Within(px, py, w.foods[id].x, w.foods[id].y, w.cfg.viewRadius)
  {
    var r := w.cfg.viewRadius;
    TracksBucket(w.foodSpatial, w.foodCells);
    forall id | id in w.foods && Within(px, py, w.foods[id].x, w.foods[id].y, r)
      ensures id in Query(w.foodSpatial, px, py, r)
    {
      var f := w.foods[id];
      QuerySoundCircle(w.foodSpatial, px, py, r, id, f.x, f.y);
    }
  }
}
