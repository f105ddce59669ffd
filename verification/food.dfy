/** The food registry of `World` (`spawnFoodAt`, `spawnFood`): foods get
    fresh ids from the strictly increasing `nextFoodId` and are kept in step
    across `foods`, `foodCells` and `foodSpatial`. */
module FoodRegistry {
  import opened Numeric
  import opened GameConfig
  import opened Environment
  import opened Spatial
  import opened WorldState

  /** The counter never hands out an id that is still registered. */
  lemma NextIdFresh(w: World)
    requires FoodsIndexed(w)
    ensures w.nextFoodId !in w.foods && w.nextFoodId !in w.foodCells
  {
  }

  /** `spawnFoodAt(x, y, value)`. */
  function SpawnFoodAt(w: World, x: real, y: real, v: real): (r: World)
    ensures r.nextFoodId == w.nextFoodId + 1
    ensures r.foods.Keys == w.foods.Keys + {w.nextFoodId}
    ensures r.foods[w.nextFoodId] == Food(w.nextFoodId, x, y, v)
    ensures forall id :: id in w.foods && id != w.nextFoodId ==> r.foods[id] == w.foods[id]
    ensures w.nextFoodId in r.foodCells && r.foodCells[w.nextFoodId] == Key(w.foodSpatial.cellSize, x, y)
    ensures w.nextFoodId in Bucket(r.foodSpatial, Key(w.foodSpatial.cellSize, x, y))
    ensures SamePlayerSide(w, r) && r.draws == w.draws
  {
    var id := w.nextFoodId;
    var added := Add(w.foodSpatial, id, x, y);
    w.(foods := w.foods[id := Food(id, x, y, v)], foodSpatial := added.0, foodCells := w.foodCells[id := added.1], nextFoodId := id + 1)
  }

  lemma SpawnFoodAtKeeps(w: World, x: real, y: real, v: real)
    requires Registry(w)
    ensures Registry(SpawnFoodAt(w, x, y, v))
  {
    var r := SpawnFoodAt(w, x, y, v);
    TracksAdd(w.foodSpatial, w.foodCells, w.nextFoodId, x, y);
    PlayerSideKeeps(w, r);
    assert FoodsIndexed(r);
  }

  /** A uniformly drawn point of the arena (draws `n` and `n + 1`). */
  function SpawnPoint(cfg: Config, env: Env, n: nat): (pt: Point)
    ensures cfg.Valid() ==> InArena(cfg, pt.x, pt.y)
  {
    Point(Rnd(env, n, 0.0, cfg.width), Rnd(env, n + 1, 0.0, cfg.height))
  }

  /** `spawnFood()`: one unit of food at a uniformly drawn point of the arena. */
  function SpawnFood(w: World, env: Env): (r: World)
    ensures r.nextFoodId == w.nextFoodId + 1
    ensures r.foods.Keys == w.foods.Keys + {w.nextFoodId}
    ensures r.foods[w.nextFoodId].v == 1.0
    ensures w.cfg.Valid() ==> InArena(w.cfg, r.foods[w.nextFoodId].x, r.foods[w.nextFoodId].y)
    ensures forall id :: id in w.foods && id != w.nextFoodId ==> r.foods[id] == w.foods[id]
    ensures SamePlayerSide(w, r) && r.draws == w.draws + 2
  {
    var pt := SpawnPoint(w.cfg, env, w.draws);
    SpawnFoodAt(w.(draws := w.draws + 2), pt.x, pt.y, 1.0)
  }

  lemma SpawnFoodKeeps(w: World, env: Env)
    requires Registry(w)
    ensures Registry(SpawnFood(w, env))
  {
    var w1 := w.(draws := w.draws + 2);
    var pt := SpawnPoint(w.cfg, env, w.draws);
    CountersKeep(w, w.draws + 2, w.tickId);
    SpawnFoodAtKeeps(w1, pt.x, pt.y, 1.0);
  }

  /** `n` calls of `spawnFood()` in a row, as the constructor makes. */
  function SpawnMany(w: World, env: Env, n: nat): (r: World)
    ensures r.nextFoodId == w.nextFoodId + n
    ensures forall id :: id in r.foods <==> id in w.foods || w.nextFoodId <= id < w.nextFoodId + n
    ensures forall id :: id in w.foods && id < w.nextFoodId ==> r.foods[id] == w.foods[id]
    ensures w.cfg.Valid() ==> forall id :: id in r.foods && id !in w.foods ==>
      r.foods[id].v == 1.0 && InArena(w.cfg, r.foods[id].x, r.foods[id].y)
    ensures SamePlayerSide(w, r) && r.draws == w.draws + 2 * n
    decreases n
  {
    if n == 0 then w
    else
      var w1 := SpawnFood(w, env);
      SpawnMany(w1, env, n - 1)
  }

  lemma {:induction false} SpawnManyKeeps(w: World, env: Env, n: nat)
    requires Registry(w)
    ensures Registry(SpawnMany(w, env, n))
    decreases n
  {
    if n > 0 {
      var w1 := SpawnFood(w, env);
      SpawnFoodKeeps(w, env);
      SpawnManyKeeps(w1, env, n - 1);
    }
  }
}
