/** The state of `World` in `src/world.js`: the player and food registries,
    their two spatial hashes with the side tables `playerCells` and
    `foodCells`, and the counters. */
module WorldState {
  import opened Wrappers
  import opened Numeric
  import opened GameConfig
  import opened Spatial

  /** A player id (a random UUID string in the source). */
  type PlayerId = string

  /** Food id `n` stands for the source's string id `"f" + n`. */
  type FoodId = nat

  datatype Point = Point(x: real, y: real)

  /** The simulated fields of a player record. The socket handle and the
      transport's message-window counters are not part of the world's logic. */
  datatype Player = Player(
    id: PlayerId,
    name: string,
    skin: string,
    x: real,
    y: real,
    angle: real,
    length: real,
    alive: bool,
    boost: bool,
    path: seq<Point>,
    lastDrop: int,
    lastInputTs: int,
    r: real)

  datatype Food = Food(id: FoodId, x: real, y: real, v: real)

  /** `order` is the insertion order of the `players` map (and, equally, of
      `playerCells`), which is the order the source's loops visit players in.
      `draws` counts the `Math.random()` calls made so far. */
  datatype World = World(
    cfg: Config,
    players: map<PlayerId, Player>,
    order: seq<PlayerId>,
    foods: map<FoodId, Food>,
    playerCells: map<PlayerId, Cell>,
    foodCells: map<FoodId, Cell>,
    playerSpatial: SpatialHash<PlayerId>,
    foodSpatial: SpatialHash<FoodId>,
    nextFoodId: nat,
    tickId: nat,
    draws: nat)

  predicate InArena(cfg: Config, x: real, y: real) {
    0.0 <= x <= cfg.width && 0.0 <= y <= cfg.height
  }

  /** Every food sits in the bucket of its own position, under the key
      `foodCells` records, and its id was handed out by the counter. */
  ghost predicate FoodsIndexed(w: World) {
    && w.foodSpatial.cellSize == w.cfg.sectorSize
    && w.foods.Keys == w.foodCells.Keys
    && Tracks(w.foodSpatial, w.foodCells)
    && (forall id :: id in w.foods ==>
          && w.foods[id].id == id
          && id < w.nextFoodId
          && w.foodCells[id] == Key(w.cfg.sectorSize, w.foods[id].x, w.foods[id].y))
  }

  /** Every player is in the bucket `playerCells` records for it, and nothing
      else is in the player hash. */
  ghost predicate PlayersIndexed(w: World) {
    && w.playerSpatial.cellSize == w.cfg.sectorSize
    && w.players.Keys == w.playerCells.Keys
    && Tracks(w.playerSpatial, w.playerCells)
    && (forall id :: id in w.players ==> w.players[id].id == id)
  }

  /** `order` lists every registered player exactly once. */
  ghost predicate OrderValid(w: World) {
    && Distinct(w.order)
    && (forall id :: id in w.order <==> id in w.players)
  }

  /** The consistency of the registries that every operation keeps. */
  ghost predicate Registry(w: World) {
    && w.cfg.Valid()
    && FoodsIndexed(w)
    && PlayersIndexed(w)
    && OrderValid(w)
  }

  /** Every player's recorded key is the key of its current position. The
      source re-establishes this once per tick in `rebuildSpatial`. */
  ghost predicate CellsCurrent(w: World)
    requires PlayersIndexed(w)
  {
    forall id :: id in w.players ==> w.playerCells[id] == Key(w.cfg.sectorSize, w.players[id].x, w.players[id].y)
  }

  /** The food side of the world is as it was. */
  ghost predicate SameFoodSide(w: World, r: World) {
    && r.cfg == w.cfg
    && r.foods == w.foods
    && r.foodCells == w.foodCells
    && r.foodSpatial == w.foodSpatial
    && r.nextFoodId == w.nextFoodId
    && r.tickId == w.tickId
  }

  /** The player side of the world is as it was. */
  ghost predicate SamePlayerSide(w: World, r: World) {
    && r.cfg == w.cfg
    && r.players == w.players
    && r.order == w.order
    && r.playerCells == w.playerCells
    && r.playerSpatial == w.playerSpatial
    && r.tickId == w.tickId
  }

  /** `s` without the element `x`. */
  function Without(s: seq<PlayerId>, x: PlayerId): (r: seq<PlayerId>)
    ensures forall y :: y in r <==> y in s && y != x
    ensures Distinct(s) ==> Distinct(r)
    ensures |r| <= |s|
    ensures x !in s ==> r == s
  {
    if s == [] then []
    else
      var rest := Without(s[1..], x);
      assert forall y :: y in s <==> y == s[0] || y in s[1..];
      assert Distinct(s) ==> Distinct(s[1..]) && s[0] !in rest by {
        if Distinct(s) {
          DistinctSplit(s);
        }
      }
      if s[0] == x then rest
      else
        assert Distinct(s) ==> Distinct([s[0]] + rest) by {
          if Distinct(s) {
            DistinctCons(s[0], rest);
          }
        }
        [s[0]] + rest
  }

  /** Removing the one occurrence of `x` keeps the other elements in their
      relative order, which is the visiting order of every later loop. */
  lemma {:induction false} WithoutAt(s: seq<PlayerId>, x: PlayerId, i: nat)
    requires Distinct(s) && i < |s| && s[i] == x
    ensures Without(s, x) == s[..i] + s[i + 1..]
  {
    DistinctSplit(s);
    if i == 0 {
      assert x !in s[1..];
    } else {
      assert s[0] != x;
      assert s[1..][i - 1] == x;
      WithoutAt(s[1..], x, i - 1);
      assert s[..i] == [s[0]] + s[1..][..i - 1];
      assert s[i + 1..] == s[1..][i..];
    }
  }

  /** The world with one registered player's record replaced. */
  function SetPlayer(w: World, id: PlayerId, p: Player): (r: World)
    requires id in w.players
    ensures r.players.Keys == w.players.Keys && r.players[id] == p
    ensures forall o :: o in w.players && o != id ==> r.players[o] == w.players[o]
    ensures SameFoodSide(w, r) && r.draws == w.draws
    ensures r.order == w.order && r.playerCells == w.playerCells && r.playerSpatial == w.playerSpatial
  {
    w.(players := w.players[id := p])
  }

  /** Replacing a record by one with the same id keeps the registry; if the
      position is kept too, recorded cells stay current. */
  lemma SetPlayerKeeps(w: World, id: PlayerId, p: Player)
    requires id in w.players && p.id == w.players[id].id
    ensures Registry(w) ==> Registry(SetPlayer(w, id, p))
    ensures Registry(w) && CellsCurrent(w) && p.x == w.players[id].x && p.y == w.players[id].y ==>
      CellsCurrent(SetPlayer(w, id, p))
  {
  }

  /** The same players stand at the same places with the same bodies. */
  ghost predicate SameBodies(w: World, r: World) {
    && r.players.Keys == w.players.Keys
    && forall o :: o in w.players ==>
         r.players[o].x == w.players[o].x && r.players[o].y == w.players[o].y && r.players[o].path == w.players[o].path
  }

  /** Recorded cells stay current while nobody moves. */
  lemma CellsCurrentKept(w: World, r: World)
    requires PlayersIndexed(w) && PlayersIndexed(r) && CellsCurrent(w)
    requires r.cfg == w.cfg && r.playerCells == w.playerCells && SameBodies(w, r)
    ensures CellsCurrent(r)
  {
  }

  /** The counters take no part in the consistency of the tables. */
  lemma CountersKeep(w: World, draws: nat, tickId: nat)
    requires Registry(w)
    ensures Registry(w.(draws := draws, tickId := tickId))
    ensures CellsCurrent(w) ==> CellsCurrent(w.(draws := draws, tickId := tickId))
  {
    var r := w.(draws := draws, tickId := tickId);
    assert r.foods == w.foods && r.foodCells == w.foodCells && r.foodSpatial == w.foodSpatial;
    assert r.players == w.players && r.playerCells == w.playerCells && r.playerSpatial == w.playerSpatial;
    assert r.cfg == w.cfg && r.order == w.order && r.nextFoodId == w.nextFoodId;
  }

  /** A step that leaves the player side alone keeps its half of the
      registry. */
  lemma PlayerSideKeeps(w: World, r: World)
    requires PlayersIndexed(w) && OrderValid(w) && SamePlayerSide(w, r)
    ensures PlayersIndexed(r) && OrderValid(r) && r.cfg.Valid() == w.cfg.Valid()
  {
  }

  /** A step that leaves the food side alone keeps its half of the
      registry. */
  lemma FoodSideKeeps(w: World, r: World)
    requires FoodsIndexed(w) && SameFoodSide(w, r)
    ensures FoodsIndexed(r) && r.cfg.Valid() == w.cfg.Valid()
  {
  }
}
