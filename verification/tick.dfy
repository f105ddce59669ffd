/** `tick(dt)` of `World` and the constructor. One tick counts itself,
    maybe spawns a food, then moves, re-indexes, feeds and collides the
    players, in that order. */
module Tick {
  import opened GameConfig
  import opened Environment
  import opened Spatial
  import opened WorldState
  import opened FoodRegistry
  import opened Movement
  import opened Rebuild
  import opened Pickup
  import opened Collisions

  /** `new World(cfg)`: empty tables, food ids from 1, tick 0, then
      `initialFood` foods. */
  function Init(cfg: Config, env: Env): (w: World)
    ensures w.players == map[] && w.order == [] && w.tickId == 0
    ensures w.nextFoodId == 1 + cfg.initialFood
    ensures forall id :: id in w.foods <==> 1 <= id <= cfg.initialFood
    ensures cfg.Valid() ==> forall id :: id in w.foods ==>
      w.foods[id].v == 1.0 && InArena(cfg, w.foods[id].x, w.foods[id].y)
    ensures cfg.Valid() ==> Registry(w) && CellsCurrent(w)
  {
    var empty := World(cfg, map[], [], map[], map[], map[], Spatial.Empty(cfg.sectorSize), Spatial.Empty(cfg.sectorSize), 1, 0, 0);
    assert cfg.Valid() ==> Registry(empty) by {
      TracksNothing(Spatial.Empty<PlayerId>(cfg.sectorSize));
      TracksNothing(Spatial.Empty<FoodId>(cfg.sectorSize));
    }
    assert cfg.Valid() ==> Registry(SpawnMany(empty, env, cfg.initialFood)) by {
      if cfg.Valid() {
        SpawnManyKeeps(empty, env, cfg.initialFood);
      }
    }
    SpawnMany(empty, env, cfg.initialFood)
  }

  /** The chance spawn at the start of a tick: below `targetFood`, one
      draw decides whether one food appears; at or above it nothing is
      drawn. */
  function MaybeSpawn(w: World, env: Env): (r: World)
    ensures |w.foods| >= w.cfg.targetFood ==> r == w
    ensures |w.foods| < w.cfg.targetFood && env.random(w.draws) < w.cfg.foodSpawnChance ==>
      && r.foods.Keys == w.foods.Keys + {w.nextFoodId}
      && r.nextFoodId == w.nextFoodId + 1
      && r.draws == w.draws + 3
    ensures |w.foods| < w.cfg.targetFood && env.random(w.draws) >= w.cfg.foodSpawnChance ==>
      SameFoodSide(w, r) && r.draws == w.draws + 1
    ensures forall id :: id in w.foods && id < w.nextFoodId ==> id in r.foods && r.foods[id] == w.foods[id]
    ensures SamePlayerSide(w, r)
  {
    if |w.foods| < w.cfg.targetFood then
      var w1 := w.(draws := w.draws + 1);
      if env.random(w.draws) < w.cfg.foodSpawnChance then SpawnFood(w1, env) else w1
    else w
  }

  lemma MaybeSpawnKeeps(w: World, env: Env)
    requires Registry(w)
    ensures Registry(MaybeSpawn(w, env))
  {
    if |w.foods| < w.cfg.targetFood {
      var w1 := w.(draws := w.draws + 1);
      CountersKeep(w, w.draws + 1, w.tickId);
      if env.random(w.draws) < w.cfg.foodSpawnChance {
        SpawnFoodKeeps(w1, env);
        assert MaybeSpawn(w, env) == SpawnFood(w1, env);
      }
    }
  }

  /** The chance spawn never lifts the population above `targetFood`. */
  lemma MaybeSpawnBounded(w: World, env: Env)
    requires Registry(w)
    ensures |MaybeSpawn(w, env).foods| <= if |w.foods| < w.cfg.targetFood then w.cfg.targetFood else |w.foods|
  {
    var r := MaybeSpawn(w, env);
    if |w.foods| < w.cfg.targetFood && env.random(w.draws) < w.cfg.foodSpawnChance {
      assert w.nextFoodId !in w.foods.Keys;
      assert |r.foods.Keys| == |w.foods.Keys| + 1;
      assert |r.foods| == |r.foods.Keys|;
    }
  }

  /** The first half of a tick: the counter and the chance spawn. */
  function Prepare(w: World, env: Env): (r: World)
    ensures r.tickId == w.tickId + 1
    ensures r.cfg == w.cfg && r.players == w.players && r.order == w.order
    ensures r.playerCells == w.playerCells && r.playerSpatial == w.playerSpatial
  {
    MaybeSpawn(w.(tickId := w.tickId + 1), env)
  }

  lemma PrepareKeeps(w: World, env: Env)
    requires Registry(w)
    ensures Registry(Prepare(w, env))
  {
    var w0 := w.(tickId := w.tickId + 1);
    CountersKeep(w, w.draws, w.tickId + 1);
    assert Registry(w0);
    MaybeSpawnKeeps(w0, env);
    assert Prepare(w, env) == MaybeSpawn(w0, env);
  }

  /** The last half of a tick, after the player hash is rebuilt: pickup,
      then collisions. Only lengths and life change, and nobody revives. */
  function Resolve(w: World, env: Env): (r: World)
    ensures r.cfg == w.cfg && r.order == w.order && r.players.Keys == w.players.Keys
    ensures r.tickId == w.tickId
    ensures forall o :: o in w.players ==>
      r.players[o] == w.players[o].(length := r.players[o].length, alive := r.players[o].alive)
    ensures forall o :: o in w.players && r.players[o].alive ==> w.players[o].alive
    ensures forall o :: o in w.players && !w.players[o].alive ==> r.players[o] == w.players[o]
  {
    StepCollisions(StepFoodPickup(w, env), env)
  }

  lemma ResolveKeeps(w: World, env: Env)
    requires Registry(w) && CellsCurrent(w)
    ensures Registry(Resolve(w, env)) && CellsCurrent(Resolve(w, env))
  {
    var w1 := StepFoodPickup(w, env);
    PickupAllKeeps(w, env, w.order);
    CellsCurrentKept(w, w1);
    var r := StepCollisions(w1, env);
    CollideAllKeeps(w1, env, w1.order);
    CellsCurrentKept(w1, r);
  }

  /** `tick(dt)` at wall-clock time `now`. */
  function Tick(w: World, env: Env, dt: real, now: int): (r: World)
    requires OrderValid(w)
    ensures r.tickId == w.tickId + 1
    ensures r.cfg == w.cfg && r.order == w.order && r.players.Keys == w.players.Keys
    ensures forall o :: o in w.players && r.players[o].alive ==> w.players[o].alive
    ensures forall o :: o in w.players && !w.players[o].alive ==> r.players[o] == w.players[o]
    ensures w.cfg.Valid() ==> forall o :: o in w.players && r.players[o].alive ==>
      InArena(w.cfg, r.players[o].x, r.players[o].y)
  {
    var w1 := Prepare(w, env);
    var w2 := StepMovement(w1, env, dt, now);
    Resolve(RebuildSpatial(w2), env)
  }

  /** A tick keeps every table consistent and leaves the player hash
      current: each player is recorded in the cell of where it now stands. */
  lemma TickKeeps(w: World, env: Env, dt: real, now: int)
    requires Registry(w)
    ensures Registry(Tick(w, env, dt, now)) && CellsCurrent(Tick(w, env, dt, now))
  {
    var w1 := Prepare(w, env);
    PrepareKeeps(w, env);
    var w2 := StepMovement(w1, env, dt, now);
    MoveAllKeeps(w1, env, dt, now, w1.order);
    RebuildKeeps(w2);
    ResolveKeeps(RebuildSpatial(w2), env);
  }
}
